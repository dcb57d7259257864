/** The texts that a client joins from the events of a stream, piece by piece. */
module SseJoined {
  import opened Sequences
  import opened Wrappers
  import opened Json
  import opened RedactJson
  import opened SseLanes
  import opened SseRewrite
  import opened StreamAutomata
  import opened StreamWellFormed
  import opened SsePipeline
  import opened SseClient
  import Sse
  import L = Lanes

  // ---- Pieces ----

  /** Does this leaf carry a piece of the text? */
  predicate IsPiece(k: Key, trees: Trees, ref: Ref) {
    && ref.event < |trees| && trees[ref.event].Some? && At(trees[ref.event].value, ref.place).Some?
    && Carries(k, ref.event, trees[ref.event].value,
               NamesOf(FamilyOfKey(k), trees[ref.event].value, ref.place, ""))
  }

  function RefsOf(event: nat, leaves: seq<Leaf>): seq<Ref> {
    seq(|leaves|, i requires 0 <= i < |leaves| => Ref(event, leaves[i].path))
  }

  /** The string leaves of all events, in document order. */
  function AllRefs(trees: Trees): seq<Ref> {
    if trees == [] then []
    else
      var n := |trees| - 1;
      AllRefs(trees[..n]) + (if trees[n].Some? then RefsOf(n, Leaves(trees[n].value, [])) else [])
  }

  function Keep(k: Key, trees: Trees, refs: seq<Ref>): seq<Ref> {
    if refs == [] then []
    else
      var n := |refs| - 1;
      Keep(k, trees, refs[..n]) + (if IsPiece(k, trees, refs[n]) then [refs[n]] else [])
  }

  function PieceRefs(k: Key, trees: Trees): seq<Ref> { Keep(k, trees, AllRefs(trees)) }

  function TextsAt(trees: Trees, refs: seq<Ref>): seq<string> {
    seq(|refs|, i requires 0 <= i < |refs| => TextAt(trees, refs[i]))
  }

  // ---- The pieces of a text are the members of its lane ----

  ghost predicate InLanes(family: Family, trees: Trees, entries: seq<Entry>) {
    forall e | e in entries ::
      && e.ref.event < |trees| && trees[e.ref.event].Some?
      && InLane(family, trees[e.ref.event].value, e.ref.event, e)
  }

  ghost predicate Sorted(g: Gathered) {
    && Refs(g.entries) == AllRefs(g.trees)
    && (g.state.family.None? ==> g.entries == [])
    && (g.state.family.Some? ==> InLanes(g.state.family.value, g.trees, g.entries))
  }

  lemma {:induction false} InLanesMore(family: Family, trees: Trees, entries: seq<Entry>, tree: Option<Json>)
    requires InLanes(family, trees, entries)
    ensures InLanes(family, trees + [tree], entries)
  {
    hide InLane;
    forall e | e in entries
      ensures e.ref.event < |trees + [tree]| && (trees + [tree])[e.ref.event] == trees[e.ref.event]
    {}
  }

  lemma {:induction false} InLanesBoth(family: Family, trees: Trees, a: seq<Entry>, b: seq<Entry>)
    requires InLanes(family, trees, a) && InLanes(family, trees, b)
    ensures InLanes(family, trees, a + b)
  {
    hide InLane;
  }

  lemma {:induction false} AllRefsMore(trees: Trees, tree: Option<Json>)
    ensures AllRefs(trees + [tree]) ==
            AllRefs(trees) + (if tree.Some? then RefsOf(|trees|, Leaves(tree.value, [])) else [])
  {
    assert (trees + [tree])[..|trees|] == trees;
  }

  lemma {:induction false} RefsOfLeaves(entries: seq<Entry>, event: nat, leaves: seq<Leaf>)
    requires LeavesOf(entries) == leaves && OfEvent(entries, event)
    ensures Refs(entries) == RefsOf(event, leaves)
  {
    forall i | 0 <= i < |entries| ensures Refs(entries)[i] == RefsOf(event, leaves)[i] {
      assert leaves[i] == LeafOf(entries[i]);
    }
    assert |leaves| == |LeavesOf(entries)| == |entries|;
  }

  lemma {:induction false} RefsOfBoth(a: seq<Entry>, b: seq<Entry>)
    ensures Refs(a + b) == Refs(a) + Refs(b)
  {}

  lemma {:induction false} AbsorbValueSorts(env: Env, provider: Option<string>, g: Gathered, v: Json,
                                            name: Option<string>)
    requires v.Obj? && Sorted(g) && AbsorbValue(env, provider, g, v, name).Ok?
    ensures Sorted(AbsorbValue(env, provider, g, v, name).value)
  {
    hide Advance, Defaulted, InLanes, Collect, AllRefs;
    var s := Observe(g.state, Payload(v, name)).value;
    var family := FamilyOf(v).value;
    var tree := Defaulted(v);
    var c := Context(s.family, tree, |g.trees|, provider);
    var more := Collect(env, c, tree, [], []).value;
    CollectListsLeaves(env, c, tree, [], []);
    RefsOfLeaves(more, |g.trees|, Leaves(tree, []));
    RefsOfBoth(g.entries, more);
    AllRefsMore(g.trees, Some(tree));
    CollectInLane(env, c, family, tree, [], []);
    NewInLanes(family, g.trees, tree, more);
    OldInLanes(family, g, tree);
    InLanesBoth(family, g.trees + [Some(tree)], g.entries, more);
  }

  lemma {:induction false} NewInLanes(family: Family, trees: Trees, tree: Json, more: seq<Entry>)
    requires forall e | e in more :: InLane(family, tree, |trees|, e)
    ensures InLanes(family, trees + [Some(tree)], more)
  {}

  lemma {:induction false} OldInLanes(family: Family, g: Gathered, tree: Json)
    requires Sorted(g) && g.state.family in {None, Some(family)}
    ensures InLanes(family, g.trees + [Some(tree)], g.entries)
  {
    if g.state.family.Some? { InLanesMore(family, g.trees, g.entries, Some(tree)); }
  }

  lemma {:induction false} AbsorbSorts(env: Env, provider: Option<string>, g: Gathered, lines: seq<string>)
    requires Sorted(g) && Absorb(env, provider, g, lines).Ok?
    ensures Sorted(Absorb(env, provider, g, lines).value)
  {
    hide InLanes, AllRefs, Metadata, AbsorbValue;
    var data := Sse.Data(lines);
    if data == "" || data == "[DONE]" {
      AllRefsMore(g.trees, None);
      ConcatNothing(AllRefs(g.trees));
      if g.state.family.Some? { InLanesMore(g.state.family.value, g.trees, g.entries, None); }
      NoneInLanes(Chat, g.trees + [None]);
    } else {
      var fields := Metadata(env, lines).value;
      var name := if "event" in fields then Some(fields["event"]) else None;
      AbsorbValueSorts(env, provider, g, env.parse(data).value, name);
    }
  }

  lemma {:induction false} NoneInLanes(family: Family, trees: Trees)
    ensures InLanes(family, trees, [])
  {}

  lemma {:induction false} GatherSorts(env: Env, provider: Option<string>, events: seq<seq<string>>)
    requires Gather(env, provider, events).Ok?
    ensures Sorted(Gather(env, provider, events).value)
  {
    hide Sorted;
    if events == [] {
      NothingSorted();
    } else {
      var n := |events| - 1;
      GatherSorts(env, provider, events[..n]);
      AbsorbSorts(env, provider, Gather(env, provider, events[..n]).value, events[n]);
    }
  }

  lemma {:induction false} NothingSorted()
    ensures Sorted(NOTHING)
  {}

  /** Of all lanes a leaf is in the one of this text exactly when it carries a piece of it. */
  lemma {:induction false} LaneIffPiece(k: Key, trees: Trees, entries: seq<Entry>, e: Entry)
    requires InLanes(FamilyOfKey(k), trees, entries) && e in entries
    ensures e.lane == KeyLane(k) <==> IsPiece(k, trees, e.ref)
  {
    hide SelectLane, KeyLane, Carries;
    var tree := trees[e.ref.event].value;
    LaneIffCarries(k, e.ref.event, tree, NamesOf(FamilyOfKey(k), tree, e.ref.place, ""));
  }

  lemma {:induction false} PiecesAreMembers(k: Key, trees: Trees, entries: seq<Entry>)
    requires InLanes(FamilyOfKey(k), trees, entries)
    ensures Keep(k, trees, Refs(entries)) == Refs(Members(entries, KeyLane(k)))
  {
    hide KeyLane, IsPiece;
    if entries != [] {
      var n := |entries| - 1;
      SplitLast(entries);
      assert Refs(entries)[..n] == Refs(entries[..n]);
      FewerInLanes(FamilyOfKey(k), trees, entries);
      PiecesAreMembers(k, trees, entries[..n]);
      LaneIffPiece(k, trees, entries, entries[n]);
      RefsOfBoth(Members(entries[..n], KeyLane(k)), if entries[n].lane == KeyLane(k) then [entries[n]] else []);
    }
  }

  lemma {:induction false} FewerInLanes(family: Family, trees: Trees, entries: seq<Entry>)
    requires entries != [] && InLanes(family, trees, entries)
    ensures InLanes(family, trees, entries[..|entries| - 1])
  {
    hide InLane;
  }

  // ---- What redaction leaves as it is ----

  /** What is known of an accepted stream of one protocol. */
  ghost predicate Rewritten(env: Env, family: Family, r: Rewriting) {
    && InLanes(family, r.g.trees, r.g.entries) && Refs(r.g.entries) == AllRefs(r.g.trees)
    && Partition(r.g.trees, r.g.entries) && SameShape(r.trees, r.g.trees)
    && (forall l | l in LaneOrder(r.g.entries) ::
          LaneOk(env, l.kind, Texts(Members(r.g.entries, l)), ReadTexts(r.trees, Members(r.g.entries, l))))
  }

  lemma {:induction false} AcceptedIsRewritten(env: Env, provider: Option<string>, events: seq<seq<string>>,
                                               family: Family)
    requires RedactEvents(env, provider, events).Ok? && BeginsAs(ItemsOf(env, events), family)
    ensures Rewritten(env, family, RedactEvents(env, provider, events).value)
  {
    hide LaneOk, Partition, SameShape, InLanes, Accepted;
    AcceptedStream(env, provider, events);
    GatherSorts(env, provider, events);
    GatherPartitions(env, provider, events);
    FamilyIsFirst(ItemsOf(env, events));
  }

  lemma {:induction false} EntryIsMember(entries: seq<Entry>, e: Entry)
    requires e in entries
    ensures e in Members(entries, e.lane)
  {
    var n := |entries| - 1;
    SplitLast(entries);
    if e != entries[n] { EntryIsMember(entries[..n], e); }
  }

  lemma {:induction false} JoinSame(a: seq<string>, b: seq<string>)
    requires |a| == |b| && L.Join(a) == L.Join(b) && forall i | 0 <= i < |a| :: |a[i]| == |b[i]|
    ensures a == b
  {
    if a != [] {
      JoinHeads(a[0], L.Join(a[1..]), b[0], L.Join(b[1..]));
      JoinSame(a[1..], b[1..]);
      SplitFirst(a);
      SplitFirst(b);
    }
  }

  lemma {:induction false} JoinHeads(a: string, s: string, b: string, t: string)
    requires a + s == b + t && |a| == |b|
    ensures a == b && s == t
  {
    assert (a + s)[..|a|] == a && (b + t)[..|b|] == b;
    assert (a + s)[|a|..] == s && (b + t)[|b|..] == t;
  }

  /** Structural text of an accepted stream has no finding and stays as it was. */
  lemma {:induction false} StructuralStays(env: Env, family: Family, r: Rewriting, e: Entry)
    requires Rewritten(env, family, r) && e in r.g.entries && e.lane.kind.StructuralKind?
    ensures TextAt(r.trees, e.ref) == e.text
  {
    hide InLanes, Partition, SameShape, Members, LaneOrder;
    LaneOrderIsComplete(r.g.entries);
    EntryIsMember(r.g.entries, e);
    var members := Members(r.g.entries, e.lane);
    var before, after := Texts(members), ReadTexts(r.trees, members);
    StructuralTextsStay(env, before, after);
    var i :| 0 <= i < |members| && members[i] == e;
    assert before[i] == e.text && after[i] == TextAt(r.trees, e.ref);
  }

  lemma {:induction false} StructuralTextsStay(env: Env, before: seq<string>, after: seq<string>)
    requires LaneOk(env, StructuralKind, before, after)
    ensures after == before
  {
    var joined := L.Join(before);
    assert L.Starred(joined, []) == joined;
    JoinSame(after, before);
  }

  // ---- The same names before and after ----

  lemma {:induction false} SameChildren(v: Json, w: Json, i: nat)
    requires Shape(v) == Shape(w)
    ensures Children(v) == Children(w) && v.Obj? == w.Obj? && v.Arr? == w.Arr?
    ensures i < Children(v) ==> Shape(Child(v, i)) == Shape(Child(w, i))
    ensures v.Obj? && i < Children(v) ==> v.fields[i].0 == w.fields[i].0
  {
    if i < Children(v) {
      if v.Obj? {
        assert Shape(v).fields[i] == Shape(w).fields[i];
      } else {
        assert Shape(v).items[i] == Shape(w).items[i];
      }
    }
  }

  /** The position of the first member with this key. */
  function FieldAt(fields: seq<(string, Json)>, key: string): (i: nat)
    ensures i <= |fields|
    ensures i < |fields| ==> fields[i].0 == key && Get(fields, key) == Some(fields[i].1)
    ensures i == |fields| ==> Get(fields, key) == None
  {
    if fields == [] then 0
    else if fields[0].0 == key then 0
    else 1 + FieldAt(fields[1..], key)
  }

  lemma {:induction false} SameFieldAt(a: seq<(string, Json)>, b: seq<(string, Json)>, key: string)
    requires |a| == |b| && forall i | 0 <= i < |a| :: a[i].0 == b[i].0
    ensures FieldAt(a, key) == FieldAt(b, key)
  {
    if a != [] { SameFieldAt(a[1..], b[1..], key); }
  }

  lemma {:induction false} SameLookup(v: Json, w: Json, key: string)
    requires Shape(v) == Shape(w)
    ensures Lookup(v, key).Some? == Lookup(w, key).Some?
    ensures Lookup(v, key).Some? ==> Shape(Lookup(v, key).value) == Shape(Lookup(w, key).value)
    ensures v.Obj? ==> w.Obj? && FieldAt(v.fields, key) == FieldAt(w.fields, key)
  {
    hide Shape;
    SameChildren(v, w, 0);
    if v.Obj? {
      forall i | 0 <= i < |v.fields| ensures v.fields[i].0 == w.fields[i].0 { SameChildren(v, w, i); }
      SameFieldAt(v.fields, w.fields, key);
      SameChildren(v, w, FieldAt(v.fields, key));
    }
  }

  lemma {:induction false} SameCalled(family: Family, v: Json, w: Json, i: nat, under: string)
    requires Shape(v) == Shape(w) && i < Children(v)
    ensures i < Children(w) && Called(family, v, i, under) == Called(family, w, i, under)
  {
    hide Shape, IndexedLists;
    SameChildren(v, w, i);
    if !v.Obj? {
      SameLookup(v.items[i], w.items[i], "index");
      SameNumber(Lookup(v.items[i], "index"), Lookup(w.items[i], "index"));
    }
  }

  lemma {:induction false} SameNumber(a: Option<Json>, b: Option<Json>)
    requires a.Some? == b.Some? && (a.Some? ==> Shape(a.value) == Shape(b.value))
    ensures a.Some? ==> a.value.Int? == b.value.Int? && (a.value.Int? ==> a.value == b.value)
  {}

  lemma {:induction false} SameNames(family: Family, v: Json, w: Json, place: Path, under: string)
    requires Shape(v) == Shape(w)
    ensures At(v, place).Some? == At(w, place).Some?
    ensures At(v, place).Some? ==> NamesOf(family, v, place, under) == NamesOf(family, w, place, under)
    ensures At(v, place).Some? ==> Shape(At(v, place).value) == Shape(At(w, place).value)
  {
    hide Shape, Called;
    if place != [] {
      SameChildren(v, w, place[0]);
      if place[0] < Children(v) {
        SameCalled(family, v, w, place[0], under);
        SameNames(family, Child(v, place[0]), Child(w, place[0]), place[1..], Called(family, v, place[0], under));
      }
    }
  }

  // ---- The same pieces before and after ----

  function StringIn(v: Option<Json>): Option<string> {
    if v.Some? && v.value.Str? then Some(v.value.s) else None
  }

  /** The members that say which text an event belongs to. */
  predicate IsLabel(names: seq<string>) { names in [["type"], ["item_id"], ["item", "id"]] }

  lemma {:induction false} LabelsAreStructural(family: Family, v: Json, names: seq<string>, t: nat)
    requires family in {Responses, Anthropic} && IsLabel(names)
    ensures SelectLane(Some(family), v, names, t) == Ok(Lane([S("event"), N(t)] + Parts(names), StructuralKind))
  {
    assert |"type"| == 4 && |"item_id"| == 7 && |"item"| == 4 && |"id"| == 2 && |"delta"| == 5 && |"arguments"| == 9;
    assert "item"[0] == 'i' && "part"[0] == 'p' && "type"[0] == 't';
    assert ResponsesLane(v, names) == None;
    assert |"content_block"| == 13;
    assert AnthropicLane(v, names) == None;
  }

  lemma {:induction false} LabelStays(env: Env, family: Family, r: Rewriting, t: nat, place: Path)
    requires Rewritten(env, family, r) && family in {Responses, Anthropic}
    requires t < |r.g.trees| && r.g.trees[t].Some? && IsLeaf(r.g.trees[t].value, place)
    requires IsLabel(NamesOf(family, r.g.trees[t].value, place, ""))
    ensures r.trees[t].Some? && At(r.trees[t].value, place) == At(r.g.trees[t].value, place)
  {
    hide LaneOk, SameShape, LaneOrder, IsLabel, SelectLane;
    var ref := Ref(t, place);
    assert SseRewrite.IsText(r.g.trees, ref);
    var e :| e in r.g.entries && e.ref == ref;
    LabelsAreStructural(family, r.g.trees[t].value, NamesOf(family, r.g.trees[t].value, place, ""), t);
    StructuralStays(env, family, r, e);
    LeafStays(r, ref, e.text);
  }

  lemma {:induction false} LeafStays(r: Rewriting, ref: Ref, text: string)
    requires SameShape(r.trees, r.g.trees) && SseRewrite.IsText(r.g.trees, ref)
    ensures SseRewrite.IsText(r.trees, ref)
    ensures TextAt(r.trees, ref) == text ==> Read(r.trees, ref) == Some(Str(text))
  {
    SameNames(Chat, r.trees[ref.event].value, r.g.trees[ref.event].value, ref.place, "");
  }

  lemma {:induction false} MemberPlace(family: Family, v: Json, key: string)
    requires Lookup(v, key).Some?
    ensures v.Obj? && FieldAt(v.fields, key) < |v.fields|
    ensures At(v, [FieldAt(v.fields, key)]) == Lookup(v, key)
    ensures NamesOf(family, v, [FieldAt(v.fields, key)], "") == [key]
  {
    var i := FieldAt(v.fields, key);
    assert [i][1..] == [];
  }

  lemma {:induction false} InnerPlace(family: Family, v: Json, first: string, second: string)
    requires Within(v, first, second).Some?
    ensures v.Obj? && Lookup(v, first).value.Obj?
    ensures var place := [FieldAt(v.fields, first), FieldAt(Lookup(v, first).value.fields, second)];
            && At(v, place) == Within(v, first, second) && NamesOf(family, v, place, "") == [first, second]
  {
    MemberPlace(family, v, first);
    var x := Lookup(v, first).value;
    var i, j := FieldAt(v.fields, first), FieldAt(x.fields, second);
    assert [i, j][1..] == [j] && [j][1..] == [];
    assert Child(v, i) == x && Child(x, j) == Within(v, first, second).value;
    assert At(x, [j]) == Some(Child(x, j)) && At(v, [i, j]) == At(x, [j]);
    assert NamesOf(family, x, [j], first) == [second];
    assert [first] + [second] == [first, second];
  }

  lemma {:induction false} SameKind(a: Option<Json>, b: Option<Json>)
    requires a.Some? == b.Some? && (a.Some? ==> Shape(a.value) == Shape(b.value))
    ensures StringIn(a).Some? == StringIn(b).Some?
  {}

  /** type and item_id are as they were... */
  lemma {:induction false} OuterLabelStays(env: Env, family: Family, r: Rewriting, t: nat, key: string)
    requires Rewritten(env, family, r) && family in {Responses, Anthropic} && key in ["type", "item_id"]
    requires t < |r.g.trees| && r.g.trees[t].Some?
    ensures r.trees[t].Some? && Shape(r.trees[t].value) == Shape(r.g.trees[t].value)
    ensures StringIn(Lookup(r.trees[t].value, key)) == StringIn(Lookup(r.g.trees[t].value, key))
  {
    hide LaneOk, LaneOrder, Partition, InLanes, Shape, Rewritten;
    ShapeOf(env, family, r, t);
    var v, w := r.g.trees[t].value, r.trees[t].value;
    SameLookup(v, w, key);
    SameKind(Lookup(v, key), Lookup(w, key));
    if StringIn(Lookup(v, key)).Some? {
      MemberPlace(family, v, key);
      MemberPlace(family, w, key);
      LabelStays(env, family, r, t, [FieldAt(v.fields, key)]);
    }
  }

  lemma {:induction false} ShapeOf(env: Env, family: Family, r: Rewriting, t: nat)
    requires Rewritten(env, family, r) && t < |r.g.trees| && r.g.trees[t].Some?
    ensures t < |r.trees| && r.trees[t].Some? && Shape(r.trees[t].value) == Shape(r.g.trees[t].value)
  {}

  lemma {:induction false} SameWithin(v: Json, w: Json, first: string, second: string)
    requires Shape(v) == Shape(w)
    ensures Within(v, first, second).Some? == Within(w, first, second).Some?
    ensures Within(v, first, second).Some? ==>
              && Shape(Within(v, first, second).value) == Shape(Within(w, first, second).value)
              && v.Obj? && w.Obj? && Lookup(v, first).value.Obj? && Lookup(w, first).value.Obj?
              && FieldAt(v.fields, first) == FieldAt(w.fields, first)
              && FieldAt(Lookup(v, first).value.fields, second) == FieldAt(Lookup(w, first).value.fields, second)
  {
    hide Shape, Get;
    SameLookup(v, w, first);
    if Lookup(v, first).Some? { SameLookup(Lookup(v, first).value, Lookup(w, first).value, second); }
  }

  /** ...and so is the id of an added item. */
  lemma {:induction false} InnerLabelStays(env: Env, family: Family, r: Rewriting, t: nat)
    requires Rewritten(env, family, r) && family in {Responses, Anthropic}
    requires t < |r.g.trees| && r.g.trees[t].Some?
    ensures r.trees[t].Some?
    ensures StringIn(Within(r.trees[t].value, "item", "id")) == StringIn(Within(r.g.trees[t].value, "item", "id"))
  {
    hide LaneOk, LaneOrder, Partition, InLanes, Shape, Rewritten, Within;
    ShapeOf(env, family, r, t);
    var v, w := r.g.trees[t].value, r.trees[t].value;
    SameWithin(v, w, "item", "id");
    SameKind(Within(v, "item", "id"), Within(w, "item", "id"));
    if StringIn(Within(v, "item", "id")).Some? {
      InnerPlace(family, v, "item", "id");
      InnerPlace(family, w, "item", "id");
      LabelStays(env, family, r, t, [FieldAt(v.fields, "item"), FieldAt(Lookup(v, "item").value.fields, "id")]);
    }
  }

  /** An event's labels, and the content index of an event of this type, read the same in both values. */
  predicate SameLabels(v: Json, w: Json) {
    && StringIn(Lookup(v, "type")) == StringIn(Lookup(w, "type"))
    && StringIn(Lookup(v, "item_id")) == StringIn(Lookup(w, "item_id"))
    && StringIn(Within(v, "item", "id")) == StringIn(Within(w, "item", "id"))
  }

  predicate SameContentIndex(delta: string, v: Json, w: Json) {
    IsDeltaType(delta) && StringIn(Lookup(v, "type")) == Some(delta) ==>
      StrOf(Lookup(v, "content_index")) == StrOf(Lookup(w, "content_index"))
  }

  lemma {:induction false} StringIs(v: Option<Json>, s: string)
    ensures IsString(v, s) <==> StringIn(v) == Some(s)
  {}

  lemma {:induction false} SameNumberIn(v: Json, w: Json, key: string, text: string)
    requires Shape(v) == Shape(w)
    ensures IsNumber(Lookup(v, key), text) == IsNumber(Lookup(w, key), text)
  {
    hide Shape;
    SameLookup(v, w, key);
    SameNumber(Lookup(v, key), Lookup(w, key));
    SameNumber(Lookup(w, key), Lookup(v, key));
  }

  lemma {:induction false} SameDelta(k: Key, v: Json, w: Json, names: seq<string>)
    requires k.ResponsesKey? && Shape(v) == Shape(w) && SameLabels(v, w) && SameContentIndex(k.delta, v, w)
    ensures CarriesDelta(k.item, k.content, k.delta, v, names) <==> CarriesDelta(k.item, k.content, k.delta, w, names)
  {
    hide Shape, StringIn, IsString, IsNumber, Within, StrOf;
    StringIs(Lookup(v, "type"), k.delta);
    StringIs(Lookup(w, "type"), k.delta);
    StringIs(Lookup(v, "type"), "response.output_item.added");
    StringIs(Lookup(w, "type"), "response.output_item.added");
    StringIs(Lookup(v, "type"), "response.content_part.added");
    StringIs(Lookup(w, "type"), "response.content_part.added");
    StringIs(Lookup(v, "item_id"), k.item);
    StringIs(Lookup(w, "item_id"), k.item);
    StringIs(Within(v, "item", "id"), k.item);
    StringIs(Within(w, "item", "id"), k.item);
    SameNumberIn(v, w, "content_index", k.content);
  }

  lemma {:induction false} SameCarries(k: Key, t: nat, v: Json, w: Json, names: seq<string>)
    requires Shape(v) == Shape(w) && (k.ResponsesKey? || k.BlockKey? ==> SameLabels(v, w))
    requires k.ResponsesKey? ==> SameContentIndex(k.delta, v, w)
    ensures Carries(k, t, v, names) <==> Carries(k, t, w, names)
  {
    hide Shape, StringIn, IsString, IsNumber, IsDeltaField, CarriesDelta;
    match k
    case ResponsesKey(_, output, _, _) =>
      SameNumberIn(v, w, "output_index", output);
      SameDelta(k, v, w, names);
    case BlockKey(index, _) =>
      SameNumberIn(v, w, "index", index);
      StringIs(Lookup(v, "type"), "content_block_delta");
      StringIs(Lookup(w, "type"), "content_block_delta");
      StringIs(Lookup(v, "type"), "content_block_start");
      StringIs(Lookup(w, "type"), "content_block_start");
    case _ =>
  }

  /** The events that carry this Responses text read the same content index before and after. */
  predicate SameContentIndexes(k: Key, r: Rewriting) {
    k.ResponsesKey? && |r.trees| == |r.g.trees| ==>
      forall t | 0 <= t < |r.g.trees| && r.g.trees[t].Some? && r.trees[t].Some? ::
        SameContentIndex(k.delta, r.g.trees[t].value, r.trees[t].value)
  }

  lemma {:induction false} LabelsStay(env: Env, k: Key, r: Rewriting, t: nat)
    requires Rewritten(env, FamilyOfKey(k), r) && t < |r.g.trees| && r.g.trees[t].Some?
    ensures t < |r.trees| && r.trees[t].Some? && Shape(r.trees[t].value) == Shape(r.g.trees[t].value)
    ensures k.ResponsesKey? || k.BlockKey? ==> SameLabels(r.g.trees[t].value, r.trees[t].value)
  {
    hide Shape, StringIn, Within, Rewritten;
    ShapeOf(env, FamilyOfKey(k), r, t);
    if k.ResponsesKey? || k.BlockKey? {
      OuterLabelStays(env, FamilyOfKey(k), r, t, "type");
      OuterLabelStays(env, FamilyOfKey(k), r, t, "item_id");
      InnerLabelStays(env, FamilyOfKey(k), r, t);
    }
  }

  /** A piece stays a piece. */
  lemma {:induction false} PieceStays(env: Env, k: Key, r: Rewriting, ref: Ref)
    requires Rewritten(env, FamilyOfKey(k), r) && SameContentIndexes(k, r)
    ensures IsPiece(k, r.trees, ref) <==> IsPiece(k, r.g.trees, ref)
  {
    hide Shape, Rewritten, SameContentIndex, SameLabels, Carries;
    SameLength(env, FamilyOfKey(k), r, ref.event);
    if ref.event < |r.g.trees| && r.g.trees[ref.event].Some? {
      LabelsStay(env, k, r, ref.event);
      var v, w := r.g.trees[ref.event].value, r.trees[ref.event].value;
      SameNames(FamilyOfKey(k), v, w, ref.place, "");
      if At(v, ref.place).Some? {
        SameCarries(k, ref.event, v, w, NamesOf(FamilyOfKey(k), v, ref.place, ""));
      }
    }
  }

  lemma {:induction false} SameLength(env: Env, family: Family, r: Rewriting, t: nat)
    requires Rewritten(env, family, r)
    ensures |r.trees| == |r.g.trees| && (t < |r.trees| ==> r.trees[t].Some? == r.g.trees[t].Some?)
  {}

  lemma {:induction false} SameLeaves(v: Json, w: Json, place: Path, t: nat)
    requires Shape(v) == Shape(w)
    ensures RefsOf(t, Leaves(v, place)) == RefsOf(t, Leaves(w, place))
    decreases v, 1, 0
  {
    hide Shape;
    SameStr(v, w);
    SameChildren(v, w, 0);
    if !v.Str? { SameLeavesFrom(v, w, place, 0, t); }
  }

  lemma {:induction false} SameStr(v: Json, w: Json)
    requires Shape(v) == Shape(w)
    ensures v.Str? == w.Str?
  {}

  lemma {:induction false} SameLeavesFrom(v: Json, w: Json, place: Path, i: nat, t: nat)
    requires Shape(v) == Shape(w) && i <= Children(v) == Children(w)
    ensures RefsOf(t, LeavesFrom(v, place, i)) == RefsOf(t, LeavesFrom(w, place, i))
    decreases v, 0, Children(v) - i
  {
    hide Shape, Leaves;
    if i < Children(v) {
      SameChildren(v, w, i);
      SameLeaves(Child(v, i), Child(w, i), place + [i], t);
      SameLeavesFrom(v, w, place, i + 1, t);
      RefsOfMore(t, Leaves(Child(v, i), place + [i]), LeavesFrom(v, place, i + 1));
      RefsOfMore(t, Leaves(Child(w, i), place + [i]), LeavesFrom(w, place, i + 1));
    }
  }

  lemma {:induction false} RefsOfMore(t: nat, a: seq<Leaf>, b: seq<Leaf>)
    ensures RefsOf(t, a + b) == RefsOf(t, a) + RefsOf(t, b)
  {}

  lemma {:induction false} SameRefs(a: Trees, b: Trees)
    requires SameShape(a, b)
    ensures AllRefs(a) == AllRefs(b)
  {
    hide RefsOf;
    if a != [] {
      var n := |a| - 1;
      SameRefs(a[..n], b[..n]);
      if a[n].Some? { SameLeaves(a[n].value, b[n].value, [], n); }
    }
  }

  lemma {:induction false} KeepSame(env: Env, k: Key, r: Rewriting, refs: seq<Ref>)
    requires Rewritten(env, FamilyOfKey(k), r) && SameContentIndexes(k, r)
    ensures Keep(k, r.trees, refs) == Keep(k, r.g.trees, refs)
  {
    hide Rewritten, IsPiece, SameContentIndexes;
    if refs != [] {
      KeepSame(env, k, r, refs[..|refs| - 1]);
      PieceStays(env, k, r, refs[|refs| - 1]);
    }
  }

  /** The pieces of a text are the same leaves before and after. */
  lemma {:induction false} PiecesStay(env: Env, k: Key, r: Rewriting)
    requires Rewritten(env, FamilyOfKey(k), r) && SameContentIndexes(k, r)
    ensures PieceRefs(k, r.trees) == PieceRefs(k, r.g.trees) == Refs(Members(r.g.entries, KeyLane(k)))
  {
    hide Partition, LaneOk, KeyLane, SameContentIndexes;
    SameRefs(r.trees, r.g.trees);
    KeepSame(env, k, r, AllRefs(r.g.trees));
    PiecesAreMembers(k, r.g.trees, r.g.entries);
  }

  // ---- What becomes of a text ----

  /** All pieces of the text, joined. */
  function ClientText(k: Key, trees: Trees): string { L.Join(TextsAt(trees, PieceRefs(k, trees))) }

  /** A text is starred where it has findings, JSON is redacted as a value, and structural text has
      no finding. */
  ghost predicate TextOk(env: Env, kind: Kind, before: string, after: string) {
    match kind
    case TextKind => after == L.Starred(before, env.find(before)) && (env.find(before) != [] ==> env.action.Redact?)
    case StructuralKind => after == before && env.find(before) == []
    case JsonKind =>
      && env.parse(before).Some?
      && var redacted := RedactTree(env, env.parse(before).value, None, [], false);
      && redacted.Ok?
      && after == if redacted.value == env.parse(before).value then before else Encode(redacted.value)
  }

  lemma {:induction false} LaneIsTextOk(env: Env, kind: Kind, before: seq<string>, after: seq<string>)
    requires LaneOk(env, kind, before, after)
    ensures TextOk(env, kind, L.Join(before), L.Join(after))
  {
    var joined := L.Join(before);
    assert L.Starred(joined, []) == joined;
  }

  lemma {:induction false} MembersRead(trees: Trees, entries: seq<Entry>, members: seq<Entry>)
    requires Partition(trees, entries) && forall e | e in members :: e in entries
    ensures TextsAt(trees, Refs(members)) == Texts(members)
  {
    forall i | 0 <= i < |members| ensures TextAt(trees, members[i].ref) == members[i].text {
      assert members[i] in members;
      assert Read(trees, members[i].ref) == Some(Str(members[i].text));
    }
  }

  lemma {:induction false} MembersReadLater(trees: Trees, members: seq<Entry>)
    ensures TextsAt(trees, Refs(members)) == ReadTexts(trees, members)
  {}

  /** Joined over all its pieces, a text of an accepted stream is redacted as a whole. */
  lemma {:induction false} PiecesAreRedacted(env: Env, k: Key, r: Rewriting)
    requires Rewritten(env, FamilyOfKey(k), r) && SameContentIndexes(k, r)
    ensures if PieceRefs(k, r.g.trees) == [] then ClientText(k, r.g.trees) == ClientText(k, r.trees) == ""
            else TextOk(env, KindOfKey(k), ClientText(k, r.g.trees), ClientText(k, r.trees))
  {
    hide PieceRefs, InLanes, SameShape, SameContentIndexes, KeyLane, LaneOk, TextOk, Members, LaneOrder, KindOfKey;
    PiecesStay(env, k, r);
    var members := Members(r.g.entries, KeyLane(k));
    MembersBelong(r.g.entries, KeyLane(k));
    MembersRead(r.g.trees, r.g.entries, members);
    MembersReadLater(r.trees, members);
    if members != [] {
      LaneOrderIsComplete(r.g.entries);
      assert members[0] in members;
      KindIsKeys(k);
      LaneIsTextOk(env, KeyLane(k).kind, Texts(members), ReadTexts(r.trees, members));
    }
  }

  lemma {:induction false} KindIsKeys(k: Key)
    ensures KeyLane(k).kind == KindOfKey(k)
  {}
}
