/** The law of joined texts: whatever a client assembles from an accepted stream is redacted as one. */
module SseTextLaw {
  import opened Sequences
  import opened Wrappers
  import opened Json
  import opened RedactJson
  import opened SseLanes
  import opened SseRewrite
  import opened StreamAutomata
  import opened StreamWellFormed
  import opened SsePipeline
  import opened SseClient
  import opened SseJoined
  import opened SseTexts
  import Sse
  import L = Lanes

  // ---- Names in the trees of an accepted stream ----

  lemma {:induction false} GetFinds(fields: seq<(string, Json)>, key: string)
    requires Get(fields, key).None?
    ensures forall i | 0 <= i < |fields| :: fields[i].0 != key
  {
    if fields != [] {
      GetFinds(fields[1..], key);
      SplitFirst(fields);
    }
  }

  lemma {:induction false} WithIndexNoRepeats(c: Json)
    requires NoRepeats(c)
    ensures NoRepeats(WithIndex(c))
  {
    var w := WithIndex(c);
    if w != c {
      GetFinds(c.fields, "index");
      forall i | 0 <= i < Children(w) ensures NoRepeats(Child(w, i)) {
        if i < |c.fields| { assert Child(w, i) == Child(c, i); }
      }
    }
  }

  lemma {:induction false} CandidatesNoRepeats(list: Json, w: Json)
    requires list.Arr? && NoRepeats(list) && w.Arr? && |w.items| == |list.items|
    requires forall i | 0 <= i < |list.items| :: w.items[i] == WithIndex(list.items[i])
    ensures NoRepeats(w)
  {
    hide WithIndex;
    forall i | 0 <= i < Children(w) ensures NoRepeats(Child(w, i)) {
      assert Child(list, i) == list.items[i];
      WithIndexNoRepeats(list.items[i]);
    }
  }

  lemma {:induction false} DefaultedNoRepeats(v: Json)
    requires NoRepeats(v)
    ensures NoRepeats(Defaulted(v))
  {
    hide FamilyOf, WithIndex;
    var w := Defaulted(v);
    if w != v {
      forall i | 0 <= i < Children(w) ensures NoRepeats(Child(w, i)) {
        assert NoRepeats(Child(v, i));
        if v.fields[i].0 == "candidates" && v.fields[i].1.Arr? {
          CandidatesNoRepeats(v.fields[i].1, w.fields[i].1);
        }
      }
      forall i, j | 0 <= i < j < |w.fields| ensures w.fields[i].0 != w.fields[j].0 {
        assert v.fields[i].0 != v.fields[j].0;
      }
    }
  }

  ghost predicate AllChecked(trees: Trees) {
    forall t | 0 <= t < |trees| && trees[t].Some? :: ResponsesOk(trees[t].value)
  }

  ghost predicate Named(g: Gathered) {
    && (g.state.family.None? ==> forall t | 0 <= t < |g.trees| :: g.trees[t].None?)
    && (g.state.family.Some? ==> AllWellNamed(g.state.family.value, g.trees))
    && (g.state.family == Some(Responses) ==> AllChecked(g.trees))
  }

  lemma {:induction false} NoTreesNamed(family: Family, trees: Trees)
    requires forall t | 0 <= t < |trees| :: trees[t].None?
    ensures AllWellNamed(family, trees) && AllChecked(trees)
  {}

  lemma {:induction false} MoreWellNamed(family: Family, trees: Trees, tree: Option<Json>)
    requires AllWellNamed(family, trees) && (tree.Some? ==> WellNamed(family, tree.value, ""))
    ensures AllWellNamed(family, trees + [tree])
  {
    hide WellNamed;
  }

  lemma {:induction false} MoreChecked(trees: Trees, tree: Option<Json>)
    requires AllChecked(trees) && (tree.Some? ==> ResponsesOk(tree.value))
    ensures AllChecked(trees + [tree])
  {
    hide ResponsesOk;
  }

  lemma {:induction false} TreeIsNamed(env: Env, c: Context, family: Family, v: Json)
    requires v.Obj? && NoRepeats(v) && c.family == Some(family) && Collect(env, c, Defaulted(v), [], []).Ok?
    ensures WellNamed(family, Defaulted(v), "")
  {
    hide Collect, Defaulted, WellNamed, NoRepeats;
    DefaultedNoRepeats(v);
    CollectWellNamed(env, c, family, Defaulted(v), [], []);
  }

  lemma {:induction false} TreeIsChecked(v: Json, name: Option<string>)
    requires LocallyOk(v, name) && FamilyOf(v) == Some(Responses)
    ensures ResponsesOk(Defaulted(v))
  {
    hide ResponsesOk, FamilyOf;
  }

  lemma {:induction false} AbsorbValueNames(env: Env, provider: Option<string>, g: Gathered, v: Json,
                                            name: Option<string>)
    requires v.Obj? && NoRepeats(v) && Named(g) && AbsorbValue(env, provider, g, v, name).Ok?
    ensures Named(AbsorbValue(env, provider, g, v, name).value)
  {
    hide Advance, Defaulted, Collect, LocallyOk, FamilyOf, NoRepeats, AllWellNamed, AllChecked;
    FamilyIsKnown(v, name);
    var family := FamilyOf(v).value;
    var tree := Defaulted(v);
    var s := Observe(g.state, Payload(v, name)).value;
    if g.state.family.None? { NoTreesNamed(family, g.trees); }
    TreeIsNamed(env, Context(s.family, tree, |g.trees|, provider), family, v);
    MoreWellNamed(family, g.trees, Some(tree));
    if family.Responses? {
      TreeIsChecked(v, name);
      MoreChecked(g.trees, Some(tree));
    }
  }

  lemma {:induction false} FamilyIsKnown(v: Json, name: Option<string>)
    ensures LocallyOk(v, name) ==> FamilyOf(v).Some?
  {}

  lemma {:induction false} AbsorbNames(env: Env, provider: Option<string>, g: Gathered, lines: seq<string>)
    requires StrictParser(env) && Named(g) && Absorb(env, provider, g, lines).Ok?
    ensures Named(Absorb(env, provider, g, lines).value)
  {
    hide Metadata, AbsorbValue, NoRepeats, AllWellNamed, AllChecked;
    var data := Sse.Data(lines);
    if data == "" || data == "[DONE]" {
      if g.state.family.None? {
        NoTreesNamed(Chat, g.trees + [None]);
      } else {
        MoreWellNamed(g.state.family.value, g.trees, None);
      }
      if g.state.family == Some(Responses) { MoreChecked(g.trees, None); }
    } else {
      var fields := Metadata(env, lines).value;
      var name := if "event" in fields then Some(fields["event"]) else None;
      AbsorbValueNames(env, provider, g, env.parse(data).value, name);
    }
  }

  lemma {:induction false} GatherNames(env: Env, provider: Option<string>, events: seq<seq<string>>)
    requires StrictParser(env) && Gather(env, provider, events).Ok?
    ensures Named(Gather(env, provider, events).value)
  {
    hide Named, StrictParser;
    if events == [] {
      NothingNamed();
    } else {
      var n := |events| - 1;
      GatherNames(env, provider, events[..n]);
      AbsorbNames(env, provider, Gather(env, provider, events[..n]).value, events[n]);
    }
  }

  lemma {:induction false} NothingNamed()
    ensures Named(NOTHING)
  {}

  lemma {:induction false} AcceptedIsNamed(env: Env, provider: Option<string>, events: seq<seq<string>>, family: Family)
    requires StrictParser(env) && RedactEvents(env, provider, events).Ok? && BeginsAs(ItemsOf(env, events), family)
    ensures var g := RedactEvents(env, provider, events).value.g;
            AllWellNamed(family, g.trees) && (family.Responses? ==> AllChecked(g.trees))
  {
    hide StrictParser, Partition, AllWellNamed, AllChecked, Accepted;
    AcceptedStream(env, provider, events);
    GatherNames(env, provider, events);
    GatherPartitions(env, provider, events);
    FamilyIsFirst(ItemsOf(env, events));
  }

  lemma {:induction false} SameWellNamed(family: Family, v: Json, w: Json, under: string)
    requires Shape(v) == Shape(w) && WellNamed(family, v, under)
    ensures WellNamed(family, w, under)
    decreases v
  {
    hide Shape, Called;
    SameChildren(v, w, 0);
    forall i | 0 <= i < Children(w)
      ensures Called(family, v, i, under) == Called(family, w, i, under)
      ensures WellNamed(family, Child(w, i), Called(family, w, i, under))
    {
      SameChildren(v, w, i);
      SameCalled(family, v, w, i, under);
      SameWellNamed(family, Child(v, i), Child(w, i), Called(family, v, i, under));
    }
  }

  lemma {:induction false} StaysWellNamed(family: Family, trees: Trees, out: Trees)
    requires SameShape(out, trees) && AllWellNamed(family, trees)
    ensures AllWellNamed(family, out)
  {
    hide WellNamed, Shape;
    forall t | 0 <= t < |out| && out[t].Some? ensures WellNamed(family, out[t].value, "") {
      SameWellNamed(family, trees[t].value, out[t].value, "");
    }
  }

  // ---- Leaves that stand alone ----

  lemma {:induction false} ResponsesKeyOf(v: Json, names: seq<string>) returns (k: Key)
    requires names != [] && ResponsesLane(v, names).Some? && ResponsesLane(v, names).value.Ok?
    ensures k.ResponsesKey? && ResponsesLane(v, names).value.value == KeyLane(k)
  {
    hide Index, StrOf, TextField;
    var lane := ResponsesLane(v, names).value.value;
    k := ResponsesKey(lane.name[1].s, lane.name[2].s, lane.name[3].s, lane.name[4].s);
  }

  lemma {:induction false} BlockKeyOf(v: Json, names: seq<string>) returns (k: Key)
    requires names != [] && AnthropicLane(v, names).Some? && AnthropicLane(v, names).value.Ok?
    ensures k.BlockKey? && AnthropicLane(v, names).value.value == KeyLane(k)
  {
    hide Index;
    var lane := AnthropicLane(v, names).value.value;
    k := BlockKey(lane.name[1].s, lane.name[2].s);
  }

  lemma {:induction false} ChatKeyOf(names: seq<string>) returns (k: Key)
    requires ChatLane(names).Some?
    ensures k.ChatKey? && ChatLane(names).value == KeyLane(k)
  {
    hide KeyLane, IsDeltaField;
    ChatLaneOfNames(names);
    k := ChatKey(names[1], names[3..]);
  }

  /** The lane of this text, or the leaf's own. */
  predicate KeyedAs(family: Family, lane: Lane, names: seq<string>, t: nat, k: Key)
    requires names != []
  {
    lane == LoneLane(family, names, t) || (FamilyOfKey(k) == family && lane == KeyLane(k))
  }

  lemma {:induction false} KeyedChatLane(v: Json, names: seq<string>, t: nat) returns (k: Key)
    requires names != [] && SelectLane(Some(Chat), v, names, t).Ok?
    ensures KeyedAs(Chat, SelectLane(Some(Chat), v, names, t).value, names, t, k)
  {
    hide KeyLane, SelectLane, LoneLane, ChatLane, ResponsesLane, AnthropicLane, IsPartText, IsResultText;
    k := McpKey(t);
    SelectChat(v, names, t);
    if ChatLane(names).Some? { k := ChatKeyOf(names); }
  }

  lemma {:induction false} KeyedResponsesLane(v: Json, names: seq<string>, t: nat) returns (k: Key)
    requires names != [] && SelectLane(Some(Responses), v, names, t).Ok?
    ensures KeyedAs(Responses, SelectLane(Some(Responses), v, names, t).value, names, t, k)
  {
    hide KeyLane, SelectLane, LoneLane, ChatLane, ResponsesLane, AnthropicLane, IsPartText, IsResultText;
    k := McpKey(t);
    SelectResponses(v, names, t);
    if ResponsesLane(v, names).Some? && ResponsesLane(v, names).value.Ok? { k := ResponsesKeyOf(v, names); }
  }

  lemma {:induction false} KeyedAnthropicLane(v: Json, names: seq<string>, t: nat) returns (k: Key)
    requires names != [] && SelectLane(Some(Anthropic), v, names, t).Ok?
    ensures KeyedAs(Anthropic, SelectLane(Some(Anthropic), v, names, t).value, names, t, k)
  {
    hide KeyLane, SelectLane, LoneLane, ChatLane, ResponsesLane, AnthropicLane, IsPartText, IsResultText;
    k := McpKey(t);
    SelectAnthropic(v, names, t);
    if AnthropicLane(v, names).Some? && AnthropicLane(v, names).value.Ok? { k := BlockKeyOf(v, names); }
  }

  lemma {:induction false} KeyedGeminiLane(v: Json, names: seq<string>, t: nat) returns (k: Key)
    requires names != [] && SelectLane(Some(Gemini), v, names, t).Ok?
    ensures KeyedAs(Gemini, SelectLane(Some(Gemini), v, names, t).value, names, t, k)
  {
    hide KeyLane, SelectLane, LoneLane;
    k := McpKey(t);
    SelectGemini(v, names, t);
    if IsPartText(names) { k := PartKey(names[1], names[4]); }
  }

  lemma {:induction false} KeyedMcpLane(v: Json, names: seq<string>, t: nat) returns (k: Key)
    requires names != [] && SelectLane(Some(Mcp), v, names, t).Ok?
    ensures KeyedAs(Mcp, SelectLane(Some(Mcp), v, names, t).value, names, t, k)
  {
    hide KeyLane, SelectLane, LoneLane, ChatLane, ResponsesLane, AnthropicLane, IsPartText, IsResultText;
    k := McpKey(t);
    SelectMcp(v, names, t);
  }

  /** A leaf's lane is that of some text, or its own. */
  lemma {:induction false} KeyedOrAlone(family: Family, v: Json, names: seq<string>, t: nat) returns (k: Key)
    requires names != [] && SelectLane(Some(family), v, names, t).Ok?
    ensures KeyedAs(family, SelectLane(Some(family), v, names, t).value, names, t, k)
  {
    hide SelectLane, KeyedAs;
    match family
    case Chat => k := KeyedChatLane(v, names, t);
    case Responses => k := KeyedResponsesLane(v, names, t);
    case Anthropic => k := KeyedAnthropicLane(v, names, t);
    case Gemini => k := KeyedGeminiLane(v, names, t);
    case Mcp => k := KeyedMcpLane(v, names, t);
  }

  lemma {:induction false} LoneLanesApart(family: Family, a: seq<string>, b: seq<string>, t: nat, u: nat)
    requires a != [] && b != [] && LoneLane(family, a, t) == LoneLane(family, b, u)
    ensures a == b && t == u
  {
    hide LoneKind;
    var x, y := LoneLane(family, a, t).name, LoneLane(family, b, u).name;
    assert x[1] == N(t) && y[1] == N(u) && x[2..] == Parts(a) && y[2..] == Parts(b);
    PartsApart(a, b);
  }

  /** The entry of a leaf that is no piece of any text is in its own lane. */
  lemma {:induction false} LoneEntry(family: Family, trees: Trees, entries: seq<Entry>, e: Entry)
    requires InLanes(family, trees, entries) && e in entries
    ensures var names := NamesOf(family, trees[e.ref.event].value, e.ref.place, "");
            names != [] && (e.lane == LoneLane(family, names, e.ref.event) ||
                            exists k: Key :: FamilyOfKey(k) == family && IsPiece(k, trees, e.ref) &&
                              e.lane == KeyLane(k))
  {
    hide SelectLane, LoneLane, KeyLane, IsPiece;
    var names := NamesOf(family, trees[e.ref.event].value, e.ref.place, "");
    var k := KeyedOrAlone(family, trees[e.ref.event].value, names, e.ref.event);
    if FamilyOfKey(k) == family { LaneIffPiece(k, trees, entries, e); }
  }

  lemma {:induction false} LoneEntriesApart(family: Family, trees: Trees, entries: seq<Entry>, e: Entry, f: Entry)
    requires InLanes(family, trees, entries) && AllWellNamed(family, trees) && e in entries && f in entries
    requires e.lane == LoneLane(family, NamesOf(family, trees[e.ref.event].value, e.ref.place, ""), e.ref.event)
    requires f.lane == e.lane
    ensures f.ref == e.ref
  {
    hide LoneLane, KeyLane, IsPiece, WellNamed, InLane;
    NamesAreThere(family, trees, entries, e);
    var a := NamesOf(family, trees[e.ref.event].value, e.ref.place, "");
    NamesAreThere(family, trees, entries, f);
    var b := NamesOf(family, trees[f.ref.event].value, f.ref.place, "");
    LoneEntry(family, trees, entries, f);
    if f.lane != LoneLane(family, b, f.ref.event) {
      var k: Key :| FamilyOfKey(k) == family && IsPiece(k, trees, f.ref) && f.lane == KeyLane(k);
      LoneIsNotKeyed(family, a, e.ref.event, k);
    } else {
      LoneLanesApart(family, a, b, e.ref.event, f.ref.event);
      NamesTellApart(family, trees[e.ref.event].value, e.ref.place, f.ref.place, "");
    }
  }

  lemma {:induction false} NamesAreThere(family: Family, trees: Trees, entries: seq<Entry>, e: Entry)
    requires InLanes(family, trees, entries) && e in entries
    ensures e.ref.event < |trees| && trees[e.ref.event].Some? && At(trees[e.ref.event].value, e.ref.place).Some?
    ensures NamesOf(family, trees[e.ref.event].value, e.ref.place, "") != []
  {}

  lemma {:induction false} FirstTwoDiffer(entries: seq<Entry>)
    requires DistinctRefs(Refs(entries))
    ensures |entries| > 1 ==> entries[0].ref != entries[1].ref
  {
    if |entries| > 1 { assert Refs(entries)[0] != Refs(entries)[1]; }
  }

  lemma {:induction false} OneMember(entries: seq<Entry>, e: Entry)
    requires e in entries && DistinctRefs(Refs(entries))
    requires forall f | f in entries && f.lane == e.lane :: f.ref == e.ref
    ensures Members(entries, e.lane) == [e]
  {
    var members := Members(entries, e.lane);
    MembersBelong(entries, e.lane);
    EntryIsMember(entries, e);
    forall i | 0 <= i < |members| ensures members[i] == e {
      assert members[i] in members;
      SameRefsSameEntry(entries, members[i], e);
    }
    FirstTwoDiffer(members);
  }

  lemma {:induction false} OneTextOk(env: Env, kind: Kind, before: seq<string>, after: seq<string>)
    requires |before| == 1 && LaneOk(env, kind, before, after)
    ensures |after| == 1 && TextOk(env, kind, before[0], after[0])
  {
    assert before == [before[0]] && after == [after[0]];
    L.JoinOne(before[0]);
    L.JoinOne(after[0]);
    LaneIsTextOk(env, kind, before, after);
  }

  /** A string that is no piece of a longer text is inspected by itself. */
  lemma {:induction false} LoneLeaf(env: Env, family: Family, r: Rewriting, ref: Ref)
    requires Rewritten(env, family, r) && AllWellNamed(family, r.g.trees) && SseRewrite.IsText(r.g.trees, ref)
    requires forall k | FamilyOfKey(k) == family :: !IsPiece(k, r.g.trees, ref)
    ensures SseRewrite.IsText(r.trees, ref)
    ensures var names := NamesOf(family, r.g.trees[ref.event].value, ref.place, "");
            names != [] &&
            TextOk(env, LoneKind(family, names), TextAt(r.g.trees, ref), TextAt(r.trees, ref))
  {
    hide InLanes, AllWellNamed, LaneOk, TextOk, SameShape, LaneOrder, Members, LoneLane, IsPiece, NamesOf;
    var e :| e in r.g.entries && e.ref == ref;
    NamesAreThere(family, r.g.trees, r.g.entries, e);
    LoneEntry(family, r.g.trees, r.g.entries, e);
    forall f | f in r.g.entries && f.lane == e.lane ensures f.ref == e.ref {
      LoneEntriesApart(family, r.g.trees, r.g.entries, e, f);
    }
    OneMember(r.g.entries, e);
    LaneOrderIsComplete(r.g.entries);
    LoneLaneKind(family, NamesOf(family, r.g.trees[ref.event].value, ref.place, ""), ref.event);
    var members := Members(r.g.entries, e.lane);
    OneTextOk(env, e.lane.kind, Texts(members), ReadTexts(r.trees, members));
    LeafStays(r, ref, TextAt(r.trees, ref));
  }

  lemma {:induction false} LoneLaneKind(family: Family, names: seq<string>, t: nat)
    requires names != []
    ensures LoneLane(family, names, t).kind == LoneKind(family, names)
  {}

  // ---- The content index of a call's arguments ----

  predicate IsArgumentsDelta(v: Json) { StringIn(Lookup(v, "type")) == Some("response.function_call_arguments.delta") }

  predicate ScalarContentIndex(v: Json) {
    IsArgumentsDelta(v) && Has(v, "content_index") ==> IsScalar(Lookup(v, "content_index").value)
  }

  /** A content index that is a text, of an event that carries arguments, keeps its value. */
  predicate ContentIndexIsClean(env: Env, v: Json) {
    var index := StringIn(Lookup(v, "content_index"));
    IsArgumentsDelta(v) && index.Some? ==> L.Starred(index.value, env.find(index.value)) == index.value
  }

  lemma {:induction false} LoneIndexStarred(env: Env, r: Rewriting, ref: Ref)
    requires Rewritten(env, Responses, r) && AllWellNamed(Responses, r.g.trees) && SseRewrite.IsText(r.g.trees, ref)
    requires NamesOf(Responses, r.g.trees[ref.event].value, ref.place, "") == ["content_index"]
    ensures var s := TextAt(r.g.trees, ref);
            SseRewrite.IsText(r.trees, ref) && TextAt(r.trees, ref) == L.Starred(s, env.find(s))
  {
    hide Rewritten, AllWellNamed, Carries, LoneKind, NamesOf;
    var v := r.g.trees[ref.event].value;
    forall k: Key | FamilyOfKey(k) == Responses ensures !IsPiece(k, r.g.trees, ref) { NoDelta(k, ref.event, v); }
    LoneLeaf(env, Responses, r, ref);
    LoneIndex();
  }

  lemma {:induction false} MemberText(family: Family, trees: Trees, t: nat, key: string)
    requires t < |trees| && trees[t].Some? && StringIn(Lookup(trees[t].value, key)).Some?
    ensures trees[t].value.Obj?
    ensures var ref := Ref(t, [FieldAt(trees[t].value.fields, key)]);
            && SseRewrite.IsText(trees, ref) && StringIn(Lookup(trees[t].value, key)) == Some(TextAt(trees, ref))
            && NamesOf(family, trees[t].value, ref.place, "") == [key]
  {
    hide NamesOf, Lookup;
    MemberPlace(family, trees[t].value, key);
  }

  /** A text that a delta has for its content index is inspected like any other. */
  lemma {:induction false} ContentIndexStarred(env: Env, r: Rewriting, t: nat, s: string)
    requires Rewritten(env, Responses, r) && AllWellNamed(Responses, r.g.trees)
    requires t < |r.g.trees| && r.g.trees[t].Some? && StringIn(Lookup(r.g.trees[t].value, "content_index")) == Some(s)
    ensures t < |r.trees| && r.trees[t].Some?
    ensures StringIn(Lookup(r.trees[t].value, "content_index")) == Some(L.Starred(s, env.find(s)))
  {
    hide Rewritten, AllWellNamed, Shape, NamesOf, Lookup, StringIn, FieldAt, SseRewrite.IsText, TextAt;
    ShapeOf(env, Responses, r, t);
    var v, w := r.g.trees[t].value, r.trees[t].value;
    MemberText(Responses, r.g.trees, t, "content_index");
    SameLookup(v, w, "content_index");
    SameKind(Lookup(v, "content_index"), Lookup(w, "content_index"));
    MemberText(Responses, r.trees, t, "content_index");
    LoneIndexStarred(env, r, Ref(t, [FieldAt(v.fields, "content_index")]));
  }

  lemma {:induction false} NoDelta(k: Key, t: nat, v: Json)
    requires k.ResponsesKey?
    ensures !Carries(k, t, v, ["content_index"])
  {
    assert |"content_index"| == 13 && |"delta"| == 5;
  }

  lemma {:induction false} LoneIndex()
    ensures LoneKind(Responses, ["content_index"]) == TextKind
  {
    assert |"content_index"| == 13 && |"finish_reason"| == 13;
    assert "content_index"[0] == 'c' && "finish_reason"[0] == 'f' && |"arguments"| == 9;
  }

  lemma {:induction false} SameScalar(a: Option<Json>, b: Option<Json>)
    requires a.Some? == b.Some? && (a.Some? ==> Shape(a.value) == Shape(b.value))
    requires a.Some? ==> IsScalar(a.value)
    ensures StringIn(a) == StringIn(b) ==> a == b
    ensures StringIn(a).None? ==> StringIn(b).None?
  {}

  lemma {:induction false} TextDeltaIndex(v: Json)
    requires ResponsesOk(v) && StringIn(Lookup(v, "type")).Some? && IsDeltaType(StringIn(Lookup(v, "type")).value)
    requires !IsArgumentsDelta(v)
    ensures Lookup(v, "content_index").Some? && Lookup(v, "content_index").value.Int?
  {
    TypesApart();
    assert TypeOf(v) == StringIn(Lookup(v, "type")).value;
  }

  /** A delta's content index reads the same afterwards, provided its value is kept if it is a text. */
  lemma {:induction false} ContentIndexStays(env: Env, r: Rewriting, t: nat, delta: string)
    requires Rewritten(env, Responses, r) && AllWellNamed(Responses, r.g.trees) && AllChecked(r.g.trees)
    requires t < |r.g.trees| && r.g.trees[t].Some? && IsDeltaType(delta)
    requires ScalarContentIndex(r.g.trees[t].value) && ContentIndexIsClean(env, r.g.trees[t].value)
    ensures r.trees[t].Some? && SameContentIndex(delta, r.g.trees[t].value, r.trees[t].value)
  {
    hide Rewritten, AllWellNamed, ResponsesOk, Shape, StrOf;
    ShapeOf(env, Responses, r, t);
    var v, w := r.g.trees[t].value, r.trees[t].value;
    SameLookup(v, w, "content_index");
    var a, b := Lookup(v, "content_index"), Lookup(w, "content_index");
    if StringIn(Lookup(v, "type")) == Some(delta) {
      if !IsArgumentsDelta(v) { TextDeltaIndex(v); }
      SameScalar(a, b);
      if IsArgumentsDelta(v) && StringIn(a).Some? { ContentIndexStarred(env, r, t, StringIn(a).value); }
    }
  }

  ghost predicate ScalarContentIndexes(trees: Trees) {
    forall t | 0 <= t < |trees| && trees[t].Some? :: ScalarContentIndex(trees[t].value)
  }

  ghost predicate CleanContentIndexes(env: Env, trees: Trees) {
    forall t | 0 <= t < |trees| && trees[t].Some? :: ContentIndexIsClean(env, trees[t].value)
  }

  predicate IsCall(k: Key) { k.ResponsesKey? && k.delta == "response.function_call_arguments.delta" }

  lemma {:induction false} NoContentIndex(k: Key, v: Json, w: Json)
    requires k.ResponsesKey? && !(IsDeltaType(k.delta) && StringIn(Lookup(v, "type")) == Some(k.delta))
    ensures SameContentIndex(k.delta, v, w)
  {}

  lemma {:induction false} OtherDelta(v: Json, delta: string)
    requires StringIn(Lookup(v, "type")) == Some(delta) && delta != "response.function_call_arguments.delta"
    ensures ScalarContentIndex(v) && forall env :: ContentIndexIsClean(env, v)
  {}

  lemma {:induction false} ContentIndexesStay(env: Env, k: Key, r: Rewriting)
    requires Rewritten(env, FamilyOfKey(k), r) && AllWellNamed(FamilyOfKey(k), r.g.trees)
    requires k.ResponsesKey? ==> AllChecked(r.g.trees)
    requires IsCall(k) ==> ScalarContentIndexes(r.g.trees) && CleanContentIndexes(env, r.g.trees)
    ensures SameContentIndexes(k, r)
  {
    hide Rewritten, AllWellNamed, AllChecked, ScalarContentIndex, ContentIndexIsClean, SameContentIndex, IsDeltaType;
    if k.ResponsesKey? {
      SameLength(env, Responses, r, 0);
      forall t | 0 <= t < |r.g.trees| && r.g.trees[t].Some? && r.trees[t].Some?
        ensures SameContentIndex(k.delta, r.g.trees[t].value, r.trees[t].value)
      {
        var v := r.g.trees[t].value;
        if IsDeltaType(k.delta) && StringIn(Lookup(v, "type")) == Some(k.delta) {
          if !IsCall(k) { OtherDelta(v, k.delta); }
          ContentIndexStays(env, r, t, k.delta);
        } else {
          NoContentIndex(k, v, r.trees[t].value);
        }
      }
    }
  }

  // ---- Main results ----

  /** What the events' payloads are before rewriting. */
  function TreesOf(env: Env, events: seq<seq<string>>): Trees {
    seq(|events|, i requires 0 <= i < |events| => TreeOf(env, events[i]))
  }

  lemma {:induction false} TreesAreTrees(env: Env, provider: Option<string>, events: seq<seq<string>>)
    requires RedactEvents(env, provider, events).Ok?
    ensures RedactEvents(env, provider, events).value.g.trees == TreesOf(env, events)
  {
    hide Partition, LaneOk, Accepted, TreeOf;
    AcceptedStream(env, provider, events);
  }

  /** Whatever a client of an accepted stream assembles, by lookups alone, from all the events that
      carry a piece of it is redacted as one text: starred where the whole text has findings,
      re-encoded as one JSON value, or left as it was and free of findings.  However the text is cut
      into events does not matter. */
  lemma {:induction false} ClientTextIsRedacted(env: Env, provider: Option<string>, events: seq<seq<string>>, k: Key)
    requires StrictParser(env) && RedactEvents(env, provider, events).Ok? && !k.McpKey?
    requires BeginsAs(ItemsOf(env, events), FamilyOfKey(k))
    requires IsCall(k) ==> ScalarContentIndexes(TreesOf(env, events)) && CleanContentIndexes(env, TreesOf(env, events))
    ensures var before, after := TreesOf(env, events), RedactEvents(env, provider, events).value.trees;
            && (HasText(k, after) <==> HasText(k, before))
            && (if HasText(k, before) then TextOk(env, KindOfKey(k), Assembled(k, before), Assembled(k, after))
                else Assembled(k, before) == Assembled(k, after) == "")
  {
    hide StrictParser, Partition, LaneOk, InLanes, TreesOf, TextOk, HasText, Assembled, RedactEvents, ClientText,
        PieceRefs;
    hide AllWellNamed, AllChecked, ScalarContentIndexes, CleanContentIndexes, SameContentIndexes;
    var family := FamilyOfKey(k);
    var r := RedactEvents(env, provider, events).value;
    TreesAreTrees(env, provider, events);
    AcceptedIsRewritten(env, provider, events, family);
    AcceptedIsNamed(env, provider, events, family);
    StaysWellNamed(family, r.g.trees, r.trees);
    ContentIndexesStay(env, k, r);
    PiecesStay(env, k, r);
    PiecesAreRedacted(env, k, r);
    AssembledIsJoined(k, r.g.trees);
    AssembledIsJoined(k, r.trees);
  }

  /** The same for the texts of one MCP result, which a client shows one after another. */
  lemma {:induction false} ResultTextIsRedacted(env: Env, provider: Option<string>, events: seq<seq<string>>, t: nat)
    requires RedactEvents(env, provider, events).Ok? && BeginsAs(ItemsOf(env, events), Mcp)
    ensures var before, after := TreesOf(env, events), RedactEvents(env, provider, events).value.trees;
            && PieceRefs(McpKey(t), after) == PieceRefs(McpKey(t), before)
            && (PieceRefs(McpKey(t), before) != [] ==>
                  TextOk(env, TextKind, ClientText(McpKey(t), before), ClientText(McpKey(t), after)))
  {
    hide Partition, LaneOk, InLanes, TreesOf, TextOk, RedactEvents, ClientText, PieceRefs;
    var r := RedactEvents(env, provider, events).value;
    TreesAreTrees(env, provider, events);
    AcceptedIsRewritten(env, provider, events, Mcp);
    PiecesStay(env, McpKey(t), r);
    PiecesAreRedacted(env, McpKey(t), r);
  }

  /** The lane of a text holds its pieces, all of them and nothing else; so two pieces of one text
      share a lane, and a piece shares none with a leaf that is no piece of that text. */
  lemma {:induction false} LanesAreTexts(env: Env, provider: Option<string>, events: seq<seq<string>>, k: Key)
    requires RedactEvents(env, provider, events).Ok? && BeginsAs(ItemsOf(env, events), FamilyOfKey(k))
    ensures var g := RedactEvents(env, provider, events).value.g;
            && Refs(g.entries) == AllRefs(TreesOf(env, events))
            && Refs(Members(g.entries, KeyLane(k))) == PieceRefs(k, TreesOf(env, events))
            && (forall e, f | e in g.entries && f in g.entries && IsPiece(k, TreesOf(env, events), e.ref) ::
                  f.lane == e.lane <==> IsPiece(k, TreesOf(env, events), f.ref))
  {
    hide Partition, LaneOk, InLanes, TreesOf, RedactEvents, IsPiece, KeyLane, Keep;
    var g := RedactEvents(env, provider, events).value.g;
    TreesAreTrees(env, provider, events);
    AcceptedIsRewritten(env, provider, events, FamilyOfKey(k));
    PiecesAreMembers(k, g.trees, g.entries);
    forall e | e in g.entries ensures e.lane == KeyLane(k) <==> IsPiece(k, g.trees, e.ref) {
      LaneIffPiece(k, g.trees, g.entries, e);
    }
  }

  // ---- When every event keeps its texts ----

  lemma {:induction false} SameFollow(family: Family, v: Json, w: Json, names: seq<string>)
    requires Shape(v) == Shape(w) && WellNamed(family, w, "") && StringIn(Follow(family, v, names, "")).Some?
    ensures StringIn(Follow(family, w, names, "")).Some?
  {
    hide Shape, WellNamed;
    var place := FollowIsThere(family, v, names, "");
    SameNames(family, v, w, place, "");
    FollowNames(family, w, place, "");
    SameStr(At(v, place).value, At(w, place).value);
  }

  lemma {:induction false} SameWhere(k: Key, v: Json, w: Json)
    requires !k.McpKey? && Shape(v) == Shape(w) && (k.ResponsesKey? || k.BlockKey? ==> SameLabels(v, w))
    requires k.ResponsesKey? ==> SameContentIndex(k.delta, v, w)
    ensures WhereIs(k, v) == WhereIs(k, w)
  {
    hide WhereIs, Carries, Shape, SameLabels, SameContentIndex;
    if WhereIs(k, v).Some? {
      WhereIsIff(k, 0, v, WhereIs(k, v).value);
      SameCarries(k, 0, v, w, WhereIs(k, v).value);
      WhereIsIff(k, 0, w, WhereIs(k, v).value);
    } else if WhereIs(k, w).Some? {
      WhereIsIff(k, 0, v, WhereIs(k, w).value);
      SameCarries(k, 0, v, w, WhereIs(k, w).value);
      WhereIsIff(k, 0, w, WhereIs(k, w).value);
    }
  }

  /** Does every event carry a piece of the same Responses texts before and after? */
  ghost predicate TextsStay(before: Trees, after: Trees) {
    |before| == |after| &&
    forall k: Key, t | k.ResponsesKey? && 0 <= t < |before| && before[t].Some? && after[t].Some? ::
      PieceOf(k, after[t].value).Some? <==> PieceOf(k, before[t].value).Some?
  }

  lemma {:induction false} PieceStaysPiece(env: Env, k: Key, r: Rewriting, t: nat)
    requires Rewritten(env, Responses, r) && AllWellNamed(Responses, r.g.trees) && AllChecked(r.g.trees)
    requires k.ResponsesKey? && ScalarContentIndexes(r.g.trees) && CleanContentIndexes(env, r.g.trees)
    requires t < |r.g.trees| && r.g.trees[t].Some?
    ensures r.trees[t].Some? && (PieceOf(k, r.trees[t].value).Some? <==> PieceOf(k, r.g.trees[t].value).Some?)
  {
    hide Rewritten, Shape, WellNamed, AllChecked, ScalarContentIndexes, CleanContentIndexes, SameContentIndex,
        SameLabels, StringIn, Follow, WhereIs;
    ContentIndexesStay(env, k, r);
    LabelsStay(env, k, r, t);
    SameLength(env, Responses, r, t);
    var v, w := r.g.trees[t].value, r.trees[t].value;
    SameWhere(k, v, w);
    SameWellNamed(Responses, v, w, "");
    if PieceOf(k, v).Some? { SameFollow(Responses, v, w, WhereIs(k, v).value); }
    if PieceOf(k, w).Some? { SameFollow(Responses, w, v, WhereIs(k, v).value); }
  }

  lemma {:induction false} FollowMember(family: Family, v: Json, key: string)
    ensures !v.Arr? ==> Follow(family, v, [key], "") == Lookup(v, key)
  {
    assert [key][1..] == [];
  }

  /** An event with arguments carries a piece of the text with its own labels. */
  lemma {:induction false} ArgumentsPiece(v: Json, content: string) returns (k: Key)
    requires v.Obj? && ResponsesOk(v) && IsArgumentsDelta(v)
    ensures IsCall(k) && k.content == content
    ensures PieceOf(k, v).Some? <==> StrOf(Lookup(v, "content_index")) == content
  {
    TypesApart();
    assert TypeOf(v) == "response.function_call_arguments.delta";
    FollowMember(Responses, v, "delta");
    var item := StringIn(Lookup(v, "item_id")).value;
    var output := Index(Lookup(v, "output_index")).value;
    NumberIffIndex(Lookup(v, "output_index"), output);
    k := ResponsesKey(item, output, content, "response.function_call_arguments.delta");
  }

  lemma {:induction false} ArgumentsIndex(k: Key, v: Json)
    requires IsCall(k) && IsArgumentsDelta(v) && PieceOf(k, v).Some?
    ensures StrOf(Lookup(v, "content_index")) == k.content
  {
    TypesApart();
  }

  lemma {:induction false} DirtyIndexMoves(env: Env, r: Rewriting, t: nat)
    requires Rewritten(env, Responses, r) && AllWellNamed(Responses, r.g.trees) && AllChecked(r.g.trees)
    requires t < |r.g.trees| && r.g.trees[t].Some? && !ContentIndexIsClean(env, r.g.trees[t].value)
    ensures !TextsStay(r.g.trees, r.trees)
  {
    hide Rewritten, AllWellNamed, ResponsesOk, PieceOf;
    SameLength(env, Responses, r, t);
    var v, w := r.g.trees[t].value, r.trees[t].value;
    var s := StringIn(Lookup(v, "content_index")).value;
    ContentIndexStarred(env, r, t, s);
    OuterLabelStays(env, Responses, r, t, "type");
    var k := ArgumentsPiece(v, s);
    if PieceOf(k, w).Some? { ArgumentsIndex(k, w); }
  }

  /** In a Responses stream whose arguments have plain content indexes, every event keeps carrying
      pieces of the same texts exactly when no such index is itself starred. */
  lemma {:induction false} TextsStayIff(env: Env, provider: Option<string>, events: seq<seq<string>>)
    requires StrictParser(env) && RedactEvents(env, provider, events).Ok?
    requires BeginsAs(ItemsOf(env, events), Responses) && ScalarContentIndexes(TreesOf(env, events))
    ensures TextsStay(TreesOf(env, events), RedactEvents(env, provider, events).value.trees) <==>
            CleanContentIndexes(env, TreesOf(env, events))
  {
    hide StrictParser, Partition, LaneOk, InLanes, TreesOf, RedactEvents, PieceOf, AllWellNamed, AllChecked,
        ContentIndexIsClean, ScalarContentIndexes, Rewritten;
    var r := RedactEvents(env, provider, events).value;
    TreesAreTrees(env, provider, events);
    AcceptedIsRewritten(env, provider, events, Responses);
    AcceptedIsNamed(env, provider, events, Responses);
    if CleanContentIndexes(env, r.g.trees) {
      SameLength(env, Responses, r, 0);
      forall k: Key, t | k.ResponsesKey? && 0 <= t < |r.g.trees| && r.g.trees[t].Some? && r.trees[t].Some?
        ensures PieceOf(k, r.trees[t].value).Some? <==> PieceOf(k, r.g.trees[t].value).Some?
      {
        PieceStaysPiece(env, k, r, t);
      }
    } else {
      var t :| 0 <= t < |r.g.trees| && r.g.trees[t].Some? && !ContentIndexIsClean(env, r.g.trees[t].value);
      DirtyIndexMoves(env, r, t);
    }
  }

  /** And a string of an accepted stream that is no piece of such a text is redacted by itself. */
  lemma {:induction false} LoneStringIsRedacted(env: Env, provider: Option<string>, events: seq<seq<string>>,
                                                family: Family, ref: Ref)
    requires StrictParser(env) && RedactEvents(env, provider, events).Ok? && BeginsAs(ItemsOf(env, events), family)
    requires SseRewrite.IsText(TreesOf(env, events), ref)
    requires forall k | FamilyOfKey(k) == family :: !IsPiece(k, TreesOf(env, events), ref)
    ensures var before, after := TreesOf(env, events), RedactEvents(env, provider, events).value.trees;
            var names := NamesOf(family, before[ref.event].value, ref.place, "");
            && SseRewrite.IsText(after, ref) && names != []
            && TextOk(env, LoneKind(family, names), TextAt(before, ref), TextAt(after, ref))
  {
    hide StrictParser, Partition, LaneOk, InLanes, TreesOf, TextOk, RedactEvents, AllWellNamed, AllChecked, IsPiece;
    TreesAreTrees(env, provider, events);
    AcceptedIsRewritten(env, provider, events, family);
    AcceptedIsNamed(env, provider, events, family);
    LoneLeaf(env, family, RedactEvents(env, provider, events).value, ref);
  }
}
