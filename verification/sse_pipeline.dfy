/** _redact_sse from end to end: frame, check, collect, rewrite, print. */
module SsePipeline {
  import opened Sequences
  import opened Wrappers
  import opened Json
  import opened RedactJson
  import opened SseLanes
  import opened SseRewrite
  import opened StreamAutomata
  import opened StreamWellFormed
  import Sse
  import L = Lanes

  // ---- Text normalisation ----

  function RemoveBom(text: string): string {
    if text != "" && text[0] == '\U{FEFF}' then text[1..] else text
  }

  /** text.replace("\r\n", "\n").replace("\r", "\n") */
  function UnixLines(text: string): string {
    if text == "" then ""
    else if text[0] != '\r' then [text[0]] + UnixLines(text[1..])
    else if |text| > 1 && text[1] == '\n' then "\n" + UnixLines(text[2..])
    else "\n" + UnixLines(text[1..])
  }

  function Normalize(body: string): string { UnixLines(RemoveBom(body)) }

  // ---- The lines of one event ----

  predicate Digits(s: string) { s != "" && forall c | c in s :: '0' <= c <= '9' }

  /** One line that is not data, given the fields already read. */
  function ReadLine(env: Env, fields: map<string, string>, line: string): Result<map<string, string>> {
    var field, contents := Sse.FieldName(line), Sse.Contents(line);
    if env.screen(Str(line)) then Err("unsafe_content")
    else if env.find(line) != [] then Err("pii_in_sse_metadata")
    else if field !in {"", "event", "id", "retry"} then Err("unsupported_sse_field")
    else if field == "" then Ok(fields)
    else if field in fields then Err("ambiguous_sse_metadata")
    else if field == "retry" && !Digits(contents) then Err("invalid_sse_retry")
    else Ok(fields[field := contents])
  }

  function Metadata(env: Env, lines: seq<string>): Result<map<string, string>> {
    if lines == [] then Ok(map[])
    else
      var n := |lines| - 1;
      match Metadata(env, lines[..n])
      case Err(e) => Err(e)
      case Ok(fields) => if Sse.IsData(lines[n]) then Ok(fields) else ReadLine(env, fields, lines[n])
  }

  /** The loop over an event's lines. */
  method ReadLines(env: Env, lines: seq<string>) returns (r: Result<map<string, string>>, data: seq<string>)
    ensures r == Metadata(env, lines)
    ensures r.Ok? ==> data == Sse.DataLines(lines)
  {
    hide ReadLine, Sse.IsData, Sse.Contents;
    var fields := map[];
    data := [];
    for i := 0 to |lines|
      invariant Metadata(env, lines[..i]) == Ok(fields)
      invariant Sse.DataLines(lines) == data + Sse.DataLines(lines[i..])
    {
      assert lines[..i + 1][..i] == lines[..i];
      assert lines[i..][0] == lines[i] && lines[i..][1..] == lines[i + 1..];
      if Sse.IsData(lines[i]) {
        data := data + [Sse.Contents(lines[i])];
      } else {
        var next := ReadLine(env, fields, lines[i]);
        if next.Err? {
          MetadataStaysRejected(env, lines, i + 1);
          return next, data;
        }
        fields := next.value;
      }
    }
    assert lines[..|lines|] == lines;
    r := Ok(fields);
  }

  lemma {:induction false} MetadataStaysRejected(env: Env, lines: seq<string>, n: nat)
    requires n <= |lines| && Metadata(env, lines[..n]).Err?
    ensures Metadata(env, lines) == Metadata(env, lines[..n])
    decreases |lines|
  {
    if n < |lines| {
      assert lines[..|lines| - 1][..n] == lines[..n];
      MetadataStaysRejected(env, lines[..|lines| - 1], n);
    } else {
      assert lines[..n] == lines;
    }
  }

  // ---- One event ----

  /** candidate.setdefault("index", 0): the key is added at the end. */
  function WithIndex(candidate: Json): Json {
    if candidate.Obj? && !Has(candidate, "index") then Obj(candidate.fields + [("index", Int(0))]) else candidate
  }

  function DefaultedFields(fields: seq<(string, Json)>): seq<(string, Json)> {
    seq(|fields|, i requires 0 <= i < |fields| =>
      if fields[i].0 == "candidates" && fields[i].1.Arr?
      then (fields[i].0, Arr(seq(|fields[i].1.items|, k requires 0 <= k < |fields[i].1.items| =>
                               WithIndex(fields[i].1.items[k]))))
      else fields[i])
  }

  function Defaulted(v: Json): (w: Json)
    ensures v.Obj? ==> w.Obj?
  {
    if v.Obj? && FamilyOf(v) == Some(Gemini) then Obj(DefaultedFields(v.fields)) else v
  }

  predicate IsScalar(v: Json) { !v.Arr? && !v.Obj? }

  /** What v has at a place is in w too; what only w has there is an added 0. */
  ghost predicate AddsOnly(v: Json, w: Json, place: Path, added: bool) {
    && (At(v, place).Some? ==> At(w, place).Some? && (IsScalar(At(v, place).value) <==> IsScalar(At(w, place).value)))
    && (At(v, place).Some? && IsScalar(At(v, place).value) ==> At(w, place) == At(v, place))
    && (At(v, place).None? && At(w, place).Some? ==> added && At(w, place) == Some(Int(0)))
  }

  predicate LacksIndex(c: Json, place: Path) { c.Obj? && !Has(c, "index") && place == [|c.fields|] }

  lemma {:induction false} WithIndexAddsIndex(c: Json, place: Path)
    ensures AddsOnly(c, WithIndex(c), place, LacksIndex(c, place))
  {
    var w := WithIndex(c);
    if w != c && place != [] {
      if place[0] < |c.fields| {
        assert Child(w, place[0]) == Child(c, place[0]);
      } else if place[0] == |c.fields| {
        assert Child(w, place[0]) == Int(0);
        assert At(w, place) == At(Int(0), place[1..]);
        assert place == [place[0]] + place[1..];
        assert place[1..] == [] ==> place == [|c.fields|];
      }
    }
  }

  /** The place of an index that a candidate lacks. */
  predicate IsMissingIndex(v: Json, place: Path) {
    && v.Obj? && place != [] && place[0] < |v.fields|
    && v.fields[place[0]].0 == "candidates" && v.fields[place[0]].1.Arr?
    && |place| > 1 && place[1] < |v.fields[place[0]].1.items|
    && LacksIndex(v.fields[place[0]].1.items[place[1]], place[2..])
  }

  /** Defaulting adds an index of 0 to the candidates that have none, and nothing else: every other
      place keeps its kind, and every string, number, boolean and null its value. */
  lemma {:induction false} DefaultedAddsOnlyIndexes(v: Json, place: Path)
    ensures AddsOnly(v, Defaulted(v), place, IsMissingIndex(v, place))
    ensures IsLeaf(Defaulted(v), place) <==> IsLeaf(v, place)
  {
    var w := Defaulted(v);
    if w != v && place != [] && place[0] < |v.fields| {
      if v.fields[place[0]].0 == "candidates" && v.fields[place[0]].1.Arr? {
        CandidateGainsIndex(v, place);
      } else {
        assert Child(w, place[0]) == Child(v, place[0]);
      }
    }
  }

  lemma {:induction false} CandidateGainsIndex(v: Json, place: Path)
    requires v.Obj? && FamilyOf(v) == Some(Gemini) && place != [] && place[0] < |v.fields|
    requires v.fields[place[0]].0 == "candidates" && v.fields[place[0]].1.Arr?
    ensures AddsOnly(v, Defaulted(v), place, IsMissingIndex(v, place))
  {
    hide Has;
    var list, rest := v.fields[place[0]].1, place[1..];
    var defaulted := Child(Defaulted(v), place[0]);
    assert Child(v, place[0]) == list && defaulted.Arr? && |defaulted.items| == |list.items|;
    assert At(v, place) == At(list, rest) && At(Defaulted(v), place) == At(defaulted, rest);
    if rest != [] && rest[0] < |list.items| {
      var c := list.items[rest[0]];
      assert Child(defaulted, rest[0]) == WithIndex(c) && Child(list, rest[0]) == c;
      assert rest[1..] == place[2..];
      assert At(list, rest) == At(c, place[2..]) && At(defaulted, rest) == At(WithIndex(c), place[2..]);
      WithIndexAddsIndex(c, place[2..]);
    }
  }

  /** Everything gathered from the events so far. */
  datatype Gathered = Gathered(state: State, items: seq<Item>, trees: Trees, entries: seq<Entry>)

  const NOTHING := Gathered(START, [], [], [])

  function Absorb(env: Env, provider: Option<string>, g: Gathered, lines: seq<string>): Result<Gathered> {
    match Metadata(env, lines)
    case Err(e) => Err(e)
    case Ok(fields) =>
      var data := Sse.Data(lines);
      if data == "" then Ok(g.(trees := g.trees + [None]))
      else if g.state.terminal then Err("sse_data_after_terminal")
      else if data == "[DONE]" then
        match Observe(g.state, Done)
        case None => Err("unexpected_sse_terminal")
        case Some(s) => Ok(g.(state := s, items := g.items + [Done], trees := g.trees + [None]))
      else
        match env.parse(data)
        case None => Err("invalid_json")
        case Some(v) =>
          if !v.Obj? then Err("unsupported_sse_payload")
          else if env.screen(v) then Err("unsafe_content")
          else AbsorbValue(env, provider, g, v, if "event" in fields then Some(fields["event"]) else None)
  }

  function AbsorbValue(env: Env, provider: Option<string>, g: Gathered, v: Json, name: Option<string>): Result<Gathered>
    requires v.Obj?
  {
    match Observe(g.state, Payload(v, name))
    case None => Err("rejected_sse_event")
    case Some(s) =>
      var tree := Defaulted(v);
      match Collect(env, Context(s.family, tree, |g.trees|, provider), tree, [], [])
      case Err(e) => Err(e)
      case Ok(entries) =>
        Ok(Gathered(s, g.items + [Payload(v, name)], g.trees + [Some(tree)], g.entries + entries))
  }

  function Gather(env: Env, provider: Option<string>, events: seq<seq<string>>): Result<Gathered> {
    if events == [] then Ok(NOTHING)
    else
      var n := |events| - 1;
      match Gather(env, provider, events[..n])
      case Err(e) => Err(e)
      case Ok(g) => Absorb(env, provider, g, events[n])
  }

  // ---- The whole function ----

  function Printable(events: seq<seq<string>>, trees: Trees): seq<Sse.Event>
    requires |events| == |trees|
  {
    seq(|events|, i requires 0 <= i < |events| =>
      Sse.Event(events[i], if trees[i].Some? then Some(Encode(trees[i].value)) else None))
  }

  /** What becomes of a stream's events: what was gathered, the trees after rewriting, and whether
      a lane changed. */
  datatype Rewriting = Rewriting(g: Gathered, trees: Trees, changed: bool)

  function RedactEvents(env: Env, provider: Option<string>, events: seq<seq<string>>): Result<Rewriting> {
    match Gather(env, provider, events)
    case Err(e) => Err(e)
    case Ok(g) =>
      if !EndsWell(g.state) then Err("incomplete_sse_stream")
      else
        match RewriteLanes(env, g.trees, g.entries, LaneOrder(g.entries))
        case Err(e) => Err(e)
        case Ok((trees, changed)) => Ok(Rewriting(g, trees, changed))
  }

  /** The result of _redact_sse on a body decoded from UTF-8. */
  function RedactSse(env: Env, provider: Option<string>, body: string): Result<string> {
    var text := Normalize(body);
    if |text| < 2 || text[|text| - 2..] != "\n\n" then Err("incomplete_sse_event")
    else if '\0' in text then Err("invalid_sse_control_character")
    else
      var events := Sse.Frame(text);
      match RedactEvents(env, provider, events)
      case Err(e) => Err(e)
      case Ok(r) =>
        if !r.changed then Ok(body)
        else if |r.trees| != |events| then Err("inspection_unavailable")
        else Ok(Sse.Print(Printable(events, r.trees)))
  }

  // ---- The same, as the program's loops ----

  function WithEarlier(changed: bool, r: Result<(Trees, bool)>): Result<(Trees, bool)> {
    match r
    case Err(e) => Err(e)
    case Ok((out, more)) => Ok((out, changed || more))
  }

  method RewriteAll(env: Env, trees: Trees, entries: seq<Entry>) returns (r: Result<(Trees, bool)>)
    ensures r == RewriteLanes(env, trees, entries, LaneOrder(entries))
  {
    var order, groups := Group(entries);
    var current, changed := trees, false;
    for i := 0 to |order|
      invariant RewriteLanes(env, trees, entries, order)
             == WithEarlier(changed, RewriteLanes(env, current, entries, order[i..]))
    {
      assert order[i..][0] == order[i] && order[i..][1..] == order[i + 1..];
      var next := SseRewrite.RewriteLane(env, current, groups[order[i]], order[i].kind);
      match next {
        case Err(e) => return Err(e);
        case Ok((rewritten, hit)) => current, changed := rewritten, changed || hit;
      }
    }
    r := Ok((current, changed));
  }

  lemma {:induction false} GatherStaysRejected(env: Env, provider: Option<string>, events: seq<seq<string>>, n: nat)
    requires n <= |events| && Gather(env, provider, events[..n]).Err?
    ensures Gather(env, provider, events) == Gather(env, provider, events[..n])
    decreases |events|
  {
    if n < |events| {
      assert events[..|events| - 1][..n] == events[..n];
      GatherStaysRejected(env, provider, events[..|events| - 1], n);
    } else {
      assert events[..n] == events;
    }
  }

  /** The loop over the events: parse, check the protocol, collect the string leaves. */
  method GatherAll(env: Env, provider: Option<string>, events: seq<seq<string>>) returns (r: Result<Gathered>)
    ensures r == Gather(env, provider, events)
  {
    var g := NOTHING;
    for i := 0 to |events|
      invariant Gather(env, provider, events[..i]) == Ok(g)
    {
      assert events[..i + 1][..i] == events[..i];
      var next := Absorb(env, provider, g, events[i]);
      match next {
        case Err(e) =>
          GatherStaysRejected(env, provider, events, i + 1);
          return Err(e);
        case Ok(more) => g := more;
      }
    }
    assert events[..|events|] == events;
    return Ok(g);
  }

  /** From the events to the rewritten trees. */
  method RewriteEvents(env: Env, provider: Option<string>, events: seq<seq<string>>) returns (r: Result<Rewriting>)
    ensures r == RedactEvents(env, provider, events)
  {
    var gathered := GatherAll(env, provider, events);
    if gathered.Err? { return Err(gathered.error); }
    var g := gathered.value;
    if !EndsWell(g.state) { return Err("incomplete_sse_stream"); }
    var rewritten := RewriteAll(env, g.trees, g.entries);
    if rewritten.Err? { return Err(rewritten.error); }
    return Ok(Rewriting(g, rewritten.value.0, rewritten.value.1));
  }

  method RedactStream(env: Env, provider: Option<string>, body: string) returns (r: Result<string>)
    ensures r == RedactSse(env, provider, body)
  {
    var text := Normalize(body);
    if |text| < 2 || text[|text| - 2..] != "\n\n" { return Err("incomplete_sse_event"); }
    if '\0' in text { return Err("invalid_sse_control_character"); }
    var events := Sse.Frame(text);
    var rewritten := RewriteEvents(env, provider, events);
    if rewritten.Err? { return Err(rewritten.error); }
    if !rewritten.value.changed { return Ok(body); }
    if |rewritten.value.trees| != |events| { return Err("inspection_unavailable"); }
    var printed := Sse.PrintStream(Printable(events, rewritten.value.trees));
    r := Ok(printed);
  }

  // ---- What was gathered ----

  /** The entries are exactly the string leaves of the trees, each once, with their texts. */
  ghost predicate Partition(trees: Trees, entries: seq<Entry>) {
    && DistinctRefs(Refs(entries))
    && (forall e | e in entries :: Read(trees, e.ref) == Some(Str(e.text)))
    && (forall ref: Ref | SseRewrite.IsText(trees, ref) :: exists e :: e in entries && e.ref == ref)
  }

  ghost predicate GatheredOk(env: Env, g: Gathered, events: seq<seq<string>>) {
    && |g.trees| == |events|
    && Run(g.items) == Some(g.state)
    && Partition(g.trees, g.entries)
    && (forall e | e in g.entries :: e.ref.event < |g.trees|)
    && (forall i | 0 <= i < |events| :: TreeOf(env, events[i]) == g.trees[i])
  }

  /** What an event's tree is before rewriting: its parsed data, with Gemini's index defaulted. */
  function TreeOf(env: Env, lines: seq<string>): Option<Json> {
    var data := Sse.Data(lines);
    if data == "" || data == "[DONE]" then None
    else
      match env.parse(data)
      case None => None
      case Some(v) => Some(Defaulted(v))
  }

  lemma {:induction false} PartitionPlainEvent(trees: Trees, entries: seq<Entry>)
    requires Partition(trees, entries)
    ensures Partition(trees + [None], entries)
  {
    forall ref: Ref
      ensures Read(trees + [None], ref) == Read(trees, ref)
      ensures SseRewrite.IsText(trees + [None], ref) == SseRewrite.IsText(trees, ref)
    {}
  }

  lemma {:induction false} PartitionGrows(trees: Trees, entries: seq<Entry>, tree: Json, more: seq<Entry>)
    requires Partition(trees, entries) && forall e | e in entries :: e.ref.event < |trees|
    requires LeavesOf(more) == Leaves(tree, []) && OfEvent(more, |trees|)
    ensures Partition(trees + [Some(tree)], entries + more)
    ensures forall e | e in entries + more :: e.ref.event < |trees| + 1
  {
    var all := trees + [Some(tree)];
    NewEntriesAreLeaves(trees, tree, more);
    forall e | e in entries ensures Read(all, e.ref) == Some(Str(e.text)) {
      assert all[e.ref.event] == trees[e.ref.event];
    }
    forall ref: Ref | SseRewrite.IsText(all, ref) ensures exists e :: e in entries + more && e.ref == ref {
      if ref.event < |trees| {
        assert all[ref.event] == trees[ref.event];
        assert SseRewrite.IsText(trees, ref);
        var e :| e in entries && e.ref == ref;
        assert e in entries + more;
      } else {
        var e :| e in more && e.ref == ref;
        assert e in entries + more;
      }
    }
    RefsStayDistinct(entries, more, |trees|);
  }

  lemma {:induction false} NewEntriesAreLeaves(trees: Trees, tree: Json, more: seq<Entry>)
    requires LeavesOf(more) == Leaves(tree, []) && OfEvent(more, |trees|)
    ensures var all := trees + [Some(tree)];
            && (forall e | e in more :: e.ref.event == |trees| && Read(all, e.ref) == Some(Str(e.text)))
            && (forall ref: Ref | ref.event == |trees| && SseRewrite.IsText(all, ref) ::
                  exists e :: e in more && e.ref == ref)
            && DistinctRefs(Refs(more))
  {
    LeavesAreLeaves(tree, []);
    LeavesAreDistinct(tree, []);
    forall e | e in more ensures e.ref.event == |trees| && At(tree, e.ref.place) == Some(Str(e.text)) {
      var i :| 0 <= i < |more| && more[i] == e;
      assert LeavesOf(more)[i] == LeafOf(e) && LeafOf(e) in Leaves(tree, []);
      assert e.ref.place[0..] == e.ref.place;
    }
    forall ref: Ref | ref.event == |trees| && IsLeaf(tree, ref.place) ensures exists e :: e in more && e.ref == ref {
      LeavesAreComplete(tree, [], ref.place);
      NothingConcat(ref.place);
      var i :| 0 <= i < |LeavesOf(more)| && LeavesOf(more)[i].path == ref.place;
      assert more[i] in more && more[i].ref == ref;
    }
    forall i, j | 0 <= i < j < |more| ensures Refs(more)[i] != Refs(more)[j] {
      assert LeavesOf(more)[i].path != LeavesOf(more)[j].path;
    }
  }

  lemma {:induction false} RefsStayDistinct(entries: seq<Entry>, more: seq<Entry>, n: nat)
    requires DistinctRefs(Refs(entries)) && DistinctRefs(Refs(more))
    requires (forall e | e in entries :: e.ref.event < n) && forall e | e in more :: e.ref.event == n
    ensures DistinctRefs(Refs(entries + more))
  {
    var all := entries + more;
    forall i, j | 0 <= i < j < |all| ensures Refs(all)[i] != Refs(all)[j] {
      if j < |entries| {
        assert Refs(all)[i] == Refs(entries)[i] && Refs(all)[j] == Refs(entries)[j];
      } else if i < |entries| {
        assert all[i] in entries && all[j] in more;
      } else {
        assert Refs(all)[i] == Refs(more)[i - |entries|] && Refs(all)[j] == Refs(more)[j - |entries|];
      }
    }
  }

  lemma {:induction false} RunSnoc(items: seq<Item>, item: Item)
    requires Run(items).Some?
    ensures Run(items + [item]) == Observe(Run(items).value, item)
  {
    assert (items + [item])[..|items|] == items;
  }

  lemma {:induction false} AbsorbKeeps(env: Env, provider: Option<string>, g: Gathered, events: seq<seq<string>>,
                                       lines: seq<string>)
    requires GatheredOk(env, g, events) && Absorb(env, provider, g, lines).Ok?
    ensures GatheredOk(env, Absorb(env, provider, g, lines).value, events + [lines])
  {
    var data := Sse.Data(lines);
    if data == "" || data == "[DONE]" {
      PartitionPlainEvent(g.trees, g.entries);
      if data != "" { RunSnoc(g.items, Done); }
    } else {
      var v := env.parse(data).value;
      var fields := Metadata(env, lines).value;
      var name := if "event" in fields then Some(fields["event"]) else None;
      RunSnoc(g.items, Payload(v, name));
      AbsorbValueKeeps(env, provider, g, v, name);
    }
  }

  lemma {:induction false} AbsorbValueKeeps(env: Env, provider: Option<string>, g: Gathered, v: Json,
                                            name: Option<string>)
    requires v.Obj? && Partition(g.trees, g.entries) && forall e | e in g.entries :: e.ref.event < |g.trees|
    requires AbsorbValue(env, provider, g, v, name).Ok?
    ensures var next := AbsorbValue(env, provider, g, v, name).value;
            && Partition(next.trees, next.entries)
            && (forall e | e in next.entries :: e.ref.event < |next.trees|)
  {
    var s := Observe(g.state, Payload(v, name)).value;
    var tree := Defaulted(v);
    var c := Context(s.family, tree, |g.trees|, provider);
    CollectListsLeaves(env, c, tree, [], []);
    PartitionGrows(g.trees, g.entries, tree, Collect(env, c, tree, [], []).value);
  }

  /** collect puts every string leaf of every event into exactly one lane, exactly once, and the
      protocol automaton accepted every event. */
  lemma {:induction false} GatherPartitions(env: Env, provider: Option<string>, events: seq<seq<string>>)
    requires Gather(env, provider, events).Ok?
    ensures GatheredOk(env, Gather(env, provider, events).value, events)
  {
    if events != [] {
      var n := |events| - 1;
      GatherPartitions(env, provider, events[..n]);
      AbsorbKeeps(env, provider, Gather(env, provider, events[..n]).value, events[..n], events[n]);
      SplitLast(events);
    }
  }

  // ---- The items the protocol checks see ----

  /** The value of an event: line. */
  function EventName(lines: seq<string>): Option<string> {
    if lines == [] then None
    else
      var last := lines[|lines| - 1];
      if Sse.FieldName(last) == "event" then Some(Sse.Contents(last)) else EventName(lines[..|lines| - 1])
  }

  /** An event as the protocol sees it: nothing without data, the end marker, or a parsed value. */
  function ItemOf(env: Env, lines: seq<string>): seq<Item> {
    var data := Sse.Data(lines);
    if data == "" then []
    else if data == "[DONE]" then [Done]
    else
      match env.parse(data)
      case None => []
      case Some(v) => [Payload(v, EventName(lines))]
  }

  function ItemsOf(env: Env, events: seq<seq<string>>): seq<Item> {
    if events == [] then [] else ItemsOf(env, events[..|events| - 1]) + ItemOf(env, events[|events| - 1])
  }

  lemma {:induction false} MetadataNamesEvent(env: Env, lines: seq<string>)
    requires Metadata(env, lines).Ok?
    ensures var fields := Metadata(env, lines).value;
            EventName(lines) == if "event" in fields then Some(fields["event"]) else None
  {
    if lines != [] {
      MetadataNamesEvent(env, lines[..|lines| - 1]);
    }
  }

  lemma {:induction false} AbsorbItems(env: Env, provider: Option<string>, g: Gathered, lines: seq<string>)
    requires Absorb(env, provider, g, lines).Ok?
    ensures Absorb(env, provider, g, lines).value.items == g.items + ItemOf(env, lines)
  {
    hide Metadata, EventName, Observe, Collect, Defaulted;
    MetadataNamesEvent(env, lines);
    ConcatNothing(g.items);
  }

  /** What was checked is the stream's own events, all of them and in order. */
  lemma {:induction false} GatheredItems(env: Env, provider: Option<string>, events: seq<seq<string>>)
    requires Gather(env, provider, events).Ok?
    ensures Gather(env, provider, events).value.items == ItemsOf(env, events)
  {
    if events != [] {
      var n := |events| - 1;
      GatheredItems(env, provider, events[..n]);
      AbsorbItems(env, provider, Gather(env, provider, events[..n]).value, events[n]);
    }
  }

  // ---- Main results ----

  lemma {:induction false} MembersAreThere(entries: seq<Entry>, e: Entry)
    requires e in entries
    ensures Members(entries, e.lane) != []
  {
    var n := |entries| - 1;
    assert entries == entries[..n] + [entries[n]];
    if e != entries[n] { MembersAreThere(entries[..n], e); }
  }

  lemma {:induction false} PartitionIsRecorded(trees: Trees, entries: seq<Entry>)
    requires Partition(trees, entries)
    ensures Recorded(trees, entries, LaneOrder(entries))
  {
    LaneOrderIsComplete(entries);
    forall l | l in LaneOrder(entries) ensures Members(entries, l) != [] {
      var e :| e in entries && e.lane == l;
      MembersAreThere(entries, e);
    }
  }

  /** An accepted stream: the protocol automaton accepted it, every string leaf belongs to one
      lane, only string leaves changed, and each lane spells what LaneOk demands: starred text or
      the re-encoded JSON. */
  lemma {:induction false} AcceptedStream(env: Env, provider: Option<string>, events: seq<seq<string>>)
    requires RedactEvents(env, provider, events).Ok?
    ensures var r := RedactEvents(env, provider, events).value;
            && r.g.items == ItemsOf(env, events) && Accepted(r.g.items)
            && Partition(r.g.trees, r.g.entries) && SameShape(r.trees, r.g.trees)
            && |r.trees| == |r.g.trees| == |events|
            && (forall i | 0 <= i < |events| :: r.g.trees[i] == TreeOf(env, events[i]))
            && (forall l | l in LaneOrder(r.g.entries) ::
                  LaneOk(env, l.kind, Texts(Members(r.g.entries, l)), ReadTexts(r.trees, Members(r.g.entries, l))))
            && (!r.changed ==> r.trees == r.g.trees)
  {
    var g := RedactEvents(env, provider, events).value.g;
    GatheredItems(env, provider, events);
    GatherPartitions(env, provider, events);
    PartitionIsRecorded(g.trees, g.entries);
    LanesRewritten(env, g.trees, g.entries, LaneOrder(g.entries));
  }

  /** Whatever its provider, the events of an accepted stream are one whole stream of one protocol. */
  lemma {:induction false} AcceptedStreamIsWhole(env: Env, provider: Option<string>, events: seq<seq<string>>)
    requires RedactEvents(env, provider, events).Ok?
    ensures WholeStream(ItemsOf(env, events))
  {
    hide WholeStream, Partition, LaneOk;
    AcceptedStream(env, provider, events);
    AcceptedIff(ItemsOf(env, events));
  }

  predicate BeginsAs(items: seq<Item>, family: Family) {
    items != [] && items[0].Payload? && FamilyOf(items[0].value) == Some(family)
  }

  /** End to end: when an accepted stream begins with an Anthropic event, its own events are all
      Anthropic ones and form a well-formed trace. */
  lemma {:induction false} AcceptedAnthropicStream(env: Env, provider: Option<string>, events: seq<seq<string>>)
    requires RedactEvents(env, provider, events).Ok? && BeginsAs(ItemsOf(env, events), Anthropic)
    ensures var items := ItemsOf(env, events);
            AllOf(items, Anthropic) && WellFormed(Tokens(items))
  {
    hide WellFormed, AllOf, Tokens, Partition, LaneOk;
    AcceptedStream(env, provider, events);
    FamilyIsFirst(ItemsOf(env, events));
    AcceptedAnthropicIsWellFormed(ItemsOf(env, events));
  }

  /** And when it begins with a Gemini event, they are all Gemini ones, some candidate is shown,
      each one shown finishes, and none carries parts after finishing. */
  lemma {:induction false} AcceptedGeminiStream(env: Env, provider: Option<string>, events: seq<seq<string>>)
    requires RedactEvents(env, provider, events).Ok? && BeginsAs(ItemsOf(env, events), Gemini)
    ensures var items := ItemsOf(env, events);
            AllOf(items, Gemini) && GeminiTrace(Candidates(items))
  {
    hide GeminiTrace, AllOf, Candidates, Partition, LaneOk;
    AcceptedStream(env, provider, events);
    FamilyIsFirst(ItemsOf(env, events));
    AcceptedGeminiIsWellFormed(ItemsOf(env, events));
  }

  /** Does the last block of the stream carry JSON, end with a blank line, and hold another line
      that is not data? */
  predicate LastBlockBreaks(events: seq<seq<string>>, trees: Trees) {
    && events != [] && |trees| == |events|
    && trees[|events| - 1].Some?
    && Sse.EndsBlank(events[|events| - 1]) && |Sse.Kept(events[|events| - 1])| >= 2
  }

  /** A printed stream framed again: the same events with the same lines other than data, each
      payload being the encoding of its tree, unless the last block breaks into two. */
  ghost predicate FramesAs(again: seq<seq<string>>, events: seq<seq<string>>, trees: Trees)
    requires |trees| == |events|
  {
    if LastBlockBreaks(events, trees) then |again| == |events| + 1
    else
      && |again| == |events|
      && forall i | 0 <= i < |events| ::
           && Sse.Kept(again[i]) == Sse.Kept(events[i])
           && (trees[i].None? ==> again[i] == events[i])
           && (trees[i].Some? ==> Sse.Data(again[i]) == Encode(trees[i].value))
  }

  lemma {:induction false} PrintedFramesAs(events: seq<seq<string>>, trees: Trees, ps: seq<string>)
    requires |trees| == |events| && Sse.Parsed(Printable(events, trees), ps)
    ensures FramesAs(Sse.Frame(Sse.Print(Printable(events, trees))), events, trees)
  {
    hide Sse.Kept, Sse.Frame, Sse.Data, Encode;
    var printable := Printable(events, trees);
    if Sse.Breaks(printable[|printable| - 1]) {
      Sse.BrokenPrintGainsEvent(printable, ps);
    } else {
      Sse.PrintThenFrame(printable, ps);
      forall i | 0 <= i < |events|
        ensures var again := Sse.Frame(Sse.Print(printable))[i];
                && Sse.Kept(again) == Sse.Kept(events[i])
                && (trees[i].None? ==> again == events[i])
                && (trees[i].Some? ==> Sse.Data(again) == Encode(trees[i].value))
      {
        assert printable[i].lines == events[i];
      }
    }
  }

  /** A client that frames the redacted stream by the same rule sees the events of the original
      with rewritten payloads; only a last block of the kind LastBlockBreaks describes splits. */
  lemma {:induction false} RedactedStreamFramesAgain(env: Env, provider: Option<string>, text: string)
    requires |text| >= 2 && RedactEvents(env, provider, Sse.Frame(text)).Ok?
    ensures var events, r := Sse.Frame(text), RedactEvents(env, provider, Sse.Frame(text)).value;
            |r.trees| == |events| && FramesAs(Sse.Frame(Sse.Print(Printable(events, r.trees))), events, r.trees)
  {
    hide Gather, RewriteLanes, Sse.SplitBlank, Sse.SplitLines, FramesAs, Sse.Parsed, LaneOk, Partition, SameShape,
        GatheredOk, TreeOf;
    var events := Sse.Frame(text);
    var r := RedactEvents(env, provider, events).value;
    AcceptedStream(env, provider, events);
    GatherPartitions(env, provider, events);
    var ps := Sse.SplitBlank(text[..|text| - 2]);
    PrintableIsParsed(env, r.g, events, r.trees, ps);
    PrintedFramesAs(events, r.trees, ps);
  }

  /** Has some lane of these events something to redact? */
  ghost predicate SomethingToRedact(env: Env, provider: Option<string>, events: seq<seq<string>>)
    requires RedactEvents(env, provider, events).Ok?
  {
    var g := RedactEvents(env, provider, events).value.g;
    AnyHits(env, g.entries, LaneOrder(g.entries))
  }

  /** The whole function: a body is answered exactly when it ends with a blank line, holds no NUL
      and its events are accepted.  The answer is the body, byte for byte, if and only if no lane
      has anything to redact or the print of the rewritten events happens to equal the body. */
  lemma {:induction false} BodyIsRedacted(env: Env, provider: Option<string>, body: string)
    ensures var text := Normalize(body);
            var whole := |text| >= 2 && text[|text| - 2..] == "\n\n" && '\0' !in text;
            && (RedactSse(env, provider, body).Ok? <==> whole && RedactEvents(env, provider, Sse.Frame(text)).Ok?)
            && (RedactSse(env, provider, body).Ok? ==>
                  var events, trees := Sse.Frame(text), RedactEvents(env, provider, Sse.Frame(text)).value.trees;
                  && |trees| == |events|
                  && (RedactSse(env, provider, body).value == body <==>
                        !SomethingToRedact(env, provider, events) || Sse.Print(Printable(events, trees)) == body)
                  && (SomethingToRedact(env, provider, events) ==>
                        RedactSse(env, provider, body).value == Sse.Print(Printable(events, trees))))
  {
    hide Normalize, Sse.Frame, Sse.Print, Gather, AnyHits;
    var text := Normalize(body);
    if |text| >= 2 && RedactEvents(env, provider, Sse.Frame(text)).Ok? {
      AcceptedStream(env, provider, Sse.Frame(text));
      ChangedIff(env, provider, Sse.Frame(text));
    }
  }

  lemma {:induction false} ChangedIff(env: Env, provider: Option<string>, events: seq<seq<string>>)
    requires RedactEvents(env, provider, events).Ok?
    ensures RedactEvents(env, provider, events).value.changed <==> SomethingToRedact(env, provider, events)
  {
    var g := RedactEvents(env, provider, events).value.g;
    ChangedIffAnyHits(env, g.trees, g.entries, LaneOrder(g.entries));
  }

  lemma {:induction false} PrintableIsParsed(env: Env, g: Gathered, events: seq<seq<string>>, trees: Trees,
                                             ps: seq<string>)
    requires GatheredOk(env, g, events) && SameShape(trees, g.trees) && events == Sse.LinesOf(ps)
    requires exists s :: ps == Sse.SplitBlank(s)
    ensures Sse.Parsed(Printable(events, trees), ps)
  {
    var s :| ps == Sse.SplitBlank(s);
    Sse.SplitBlankIsPieces(s);
    forall i | 0 <= i < |ps| ensures Sse.FromPiece(Printable(events, trees)[i], ps[i]) {
      if trees[i].Some? {
        EncodeIsPlain(trees[i].value);
        assert g.trees[i].Some?;
      }
    }
  }
}
