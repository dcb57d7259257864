/** What a client of an event stream reads, by lookups alone, and what redaction makes of it. */
module SseTexts {
  import opened Sequences
  import opened Wrappers
  import opened Json
  import opened RedactJson
  import opened SseLanes
  import opened SseRewrite
  import opened StreamAutomata
  import opened SsePipeline
  import opened SseClient
  import opened SseJoined
  import Sse
  import L = Lanes

  // ---- Reading a text by lookups ----

  /** The first element, from i on, with this name: its index where elements have one, or its position. */
  function Item(family: Family, v: Json, name: string, under: string, i: nat): Option<Json>
    requires v.Arr? && i <= |v.items|
    decreases |v.items| - i
  {
    if i == |v.items| then None
    else if Called(family, v, i, under) == name then Some(v.items[i])
    else Item(family, v, name, under, i + 1)
  }

  function Member(family: Family, v: Json, name: string, under: string): Option<Json> {
    if v.Arr? then Item(family, v, name, under, 0) else Lookup(v, name)
  }

  function Follow(family: Family, v: Json, names: seq<string>, under: string): Option<Json>
    decreases |names|
  {
    if names == [] then Some(v)
    else
      match Member(family, v, names[0], under)
      case None => None
      case Some(x) => Follow(family, x, names[1..], names[0])
  }

  /** Where an event with this payload has its piece of the text, if it has one. */
  function WhereIs(k: Key, v: Json): Option<seq<string>> {
    match k
    case ChatKey(choice, rest) => if IsDeltaField(rest) then Some(["choices", choice, "delta"] + rest) else None
    case ResponsesKey(item, output, content, delta) =>
      if IsNumber(Lookup(v, "output_index"), output) then WhereIsDelta(item, content, delta, v) else None
    case BlockKey(index, field) =>
      if !IsNumber(Lookup(v, "index"), index) then None
      else if IsString(Lookup(v, "type"), "content_block_delta") &&
              field in ["text", "thinking", "partial_json", "signature"] then Some(["delta", field])
      else if IsString(Lookup(v, "type"), "content_block_start") && field in ["text", "thinking"] then
        Some(["content_block", field])
      else None
    case PartKey(candidate, part) => Some(["candidates", candidate, "content", "parts", part, "text"])
    case McpKey(_) => None
  }

  function WhereIsDelta(item: string, content: string, delta: string, v: Json): Option<seq<string>> {
    var kind := Lookup(v, "type");
    if IsDeltaType(delta) && IsString(kind, delta) then
      (if IsString(Lookup(v, "item_id"), item) && StrOf(Lookup(v, "content_index")) == content
       then Some(["delta"]) else None)
    else if IsString(kind, "response.output_item.added") then
      (if delta == "response.function_call_arguments.delta" && content == "" && IsString(Within(v, "item", "id"), item)
       then Some(["item", "arguments"]) else None)
    else if IsString(kind, "response.content_part.added") && IsString(Lookup(v, "item_id"), item)
            && IsNumber(Lookup(v, "content_index"), content) then
      (if delta == "response.output_text.delta" then Some(["part", "text"])
       else if delta == "response.refusal.delta" then Some(["part", "refusal"]) else None)
    else None
  }

  /** The piece that this event carries. */
  function PieceOf(k: Key, v: Json): Option<string> {
    match WhereIs(k, v)
    case None => None
    case Some(names) => StringIn(Follow(FamilyOfKey(k), v, names, ""))
  }

  predicate HasText(k: Key, trees: Trees) {
    exists t | 0 <= t < |trees| :: trees[t].Some? && PieceOf(k, trees[t].value).Some?
  }

  function TextOr(piece: Option<string>): string { if piece.Some? then piece.value else "" }

  /** The text that a client puts together from the events. */
  function Assembled(k: Key, trees: Trees): string {
    if trees == [] then ""
    else
      var n := |trees| - 1;
      Assembled(k, trees[..n]) + (if trees[n].Some? then TextOr(PieceOf(k, trees[n].value)) else "")
  }

  lemma {:induction false} WhereIsDeltaIff(k: Key, v: Json, names: seq<string>)
    requires k.ResponsesKey?
    ensures WhereIsDelta(k.item, k.content, k.delta, v) == Some(names) <==>
            CarriesDelta(k.item, k.content, k.delta, v, names)
  {
    hide IsNumber, StrOf, Within;
    TypesApart();
    assert "text"[0] == 't' && "refusal"[0] == 'r';
  }

  lemma {:induction false} WhereIsBlockIff(k: Key, t: nat, v: Json, names: seq<string>)
    requires k.BlockKey?
    ensures WhereIs(k, v) == Some(names) <==> Carries(k, t, v, names)
  {
    hide IsNumber, Lookup;
    TypesOfBlocks(Lookup(v, "type"));
  }

  lemma {:induction false} WhereIsIff(k: Key, t: nat, v: Json, names: seq<string>)
    requires !k.McpKey?
    ensures WhereIs(k, v) == Some(names) <==> Carries(k, t, v, names)
  {
    hide IsNumber, WhereIsDelta, CarriesDelta, IsDeltaField;
    match k
    case ResponsesKey(_, _, _, _) => WhereIsDeltaIff(k, v, names);
    case ChatKey(choice, rest) => assert |["choices", choice, "delta"] + rest| == 3 + |rest|;
    case BlockKey(_, _) => WhereIsBlockIff(k, t, v, names);
    case _ =>
  }

  // ---- Names tell places apart ----

  ghost predicate WellNamed(family: Family, v: Json, under: string)
    decreases v
  {
    && (forall i, j | 0 <= i < j < Children(v) :: Called(family, v, i, under) != Called(family, v, j, under))
    && (forall i | 0 <= i < Children(v) :: WellNamed(family, Child(v, i), Called(family, v, i, under)))
  }

  lemma {:induction false} GetCalled(fields: seq<(string, Json)>, i: nat)
    requires i < |fields| && forall j, m | 0 <= j < m < |fields| :: fields[j].0 != fields[m].0
    ensures Get(fields, fields[i].0) == Some(fields[i].1)
  {
    if i > 0 {
      assert fields[0].0 != fields[i].0;
      GetCalled(fields[1..], i - 1);
    }
  }

  lemma {:induction false} ItemCalled(family: Family, v: Json, under: string, i: nat, from: nat)
    requires v.Arr? && from <= i < |v.items| && WellNamed(family, v, under)
    ensures Item(family, v, Called(family, v, i, under), under, from) == Some(v.items[i])
    decreases i - from
  {
    hide Called;
    if from < i {
      assert from < i < Children(v);
      ItemCalled(family, v, under, i, from + 1);
    }
  }

  lemma {:induction false} MemberCalled(family: Family, v: Json, under: string, i: nat)
    requires i < Children(v) && WellNamed(family, v, under)
    ensures Member(family, v, Called(family, v, i, under), under) == Some(Child(v, i))
  {
    if v.Arr? {
      ItemCalled(family, v, under, i, 0);
    } else {
      forall j, m | 0 <= j < m < |v.fields| ensures v.fields[j].0 != v.fields[m].0 {
        assert Called(family, v, j, under) != Called(family, v, m, under);
      }
      GetCalled(v.fields, i);
    }
  }

  /** Following the names of a place leads there. */
  lemma {:induction false} FollowNames(family: Family, v: Json, place: Path, under: string)
    requires WellNamed(family, v, under) && At(v, place).Some?
    ensures Follow(family, v, NamesOf(family, v, place, under), under) == At(v, place)
  {
    hide Called, Member;
    if place != [] {
      MemberCalled(family, v, under, place[0]);
      var name := Called(family, v, place[0], under);
      FollowNames(family, Child(v, place[0]), place[1..], name);
      var rest := NamesOf(family, Child(v, place[0]), place[1..], name);
      assert ([name] + rest)[1..] == rest;
    }
  }

  /** Two places have two names. */
  lemma {:induction false} NamesTellApart(family: Family, v: Json, a: Path, b: Path, under: string)
    requires WellNamed(family, v, under) && At(v, a).Some? && At(v, b).Some?
    requires NamesOf(family, v, a, under) == NamesOf(family, v, b, under)
    ensures a == b
  {
    hide Called;
    var x, y := NamesOf(family, v, a, under), NamesOf(family, v, b, under);
    if a != [] && b != [] {
      assert x[0] == Called(family, v, a[0], under) && y[0] == Called(family, v, b[0], under);
      assert a[0] == b[0];
      assert x[1..] == NamesOf(family, Child(v, a[0]), a[1..], x[0]);
      assert y[1..] == NamesOf(family, Child(v, b[0]), b[1..], y[0]);
      NamesTellApart(family, Child(v, a[0]), a[1..], b[1..], x[0]);
      SplitFirst(a);
      SplitFirst(b);
    }
  }

  // ---- Where a name leads ----

  lemma {:induction false} ItemIsThere(family: Family, v: Json, name: string, under: string, from: nat) returns (i: nat)
    requires v.Arr? && from <= |v.items| && Item(family, v, name, under, from).Some?
    ensures i < |v.items| && Called(family, v, i, under) == name
    ensures Item(family, v, name, under, from) == Some(v.items[i])
    decreases |v.items| - from
  {
    i := from;
    if Called(family, v, from, under) != name { i := ItemIsThere(family, v, name, under, from + 1); }
  }

  lemma {:induction false} MemberIsThere(family: Family, v: Json, name: string, under: string) returns (i: nat)
    requires Member(family, v, name, under).Some?
    ensures i < Children(v) && Called(family, v, i, under) == name
    ensures Member(family, v, name, under) == Some(Child(v, i))
  {
    if v.Arr? { i := ItemIsThere(family, v, name, under, 0); } else { i := FieldAt(v.fields, name); }
  }

  lemma {:induction false} FollowIsThere(family: Family, v: Json, names: seq<string>, under: string)
    returns (place: Path)
    requires Follow(family, v, names, under).Some?
    ensures At(v, place) == Follow(family, v, names, under) && NamesOf(family, v, place, under) == names
    decreases |names|
  {
    place := [];
    if names != [] {
      var i := MemberIsThere(family, v, names[0], under);
      var rest := FollowIsThere(family, Child(v, i), names[1..], names[0]);
      place := [i] + rest;
      assert place[0] == i && place[1..] == rest;
      SplitFirst(names);
    }
  }

  // ---- Assembling by lookups is joining the pieces ----

  lemma {:induction false} KeepBoth(k: Key, trees: Trees, a: seq<Ref>, b: seq<Ref>)
    ensures Keep(k, trees, a + b) == Keep(k, trees, a) + Keep(k, trees, b)
    decreases |b|
  {
    hide IsPiece;
    if b == [] {
      ConcatNothing(a);
      ConcatNothing(Keep(k, trees, a));
    } else {
      ConcatLast(a, b);
      KeepBoth(k, trees, a, b[..|b| - 1]);
      Associate(Keep(k, trees, a), Keep(k, trees, b[..|b| - 1]),
                if IsPiece(k, trees, b[|b| - 1]) then [b[|b| - 1]] else []);
    }
  }

  lemma {:induction false} KeepNone(k: Key, trees: Trees, refs: seq<Ref>)
    requires forall ref | ref in refs :: !IsPiece(k, trees, ref)
    ensures Keep(k, trees, refs) == []
  {
    hide IsPiece;
    if refs != [] {
      KeepNone(k, trees, refs[..|refs| - 1]);
    }
  }

  lemma {:induction false} KeepOne(k: Key, trees: Trees, refs: seq<Ref>, one: Ref)
    requires one in refs && DistinctRefs(refs) && forall ref | ref in refs :: IsPiece(k, trees, ref) <==> ref == one
    ensures Keep(k, trees, refs) == [one]
  {
    hide IsPiece;
    var n := |refs| - 1;
    SplitLast(refs);
    if refs[n] == one {
      forall ref | ref in refs[..n] ensures !IsPiece(k, trees, ref) {
        var i :| 0 <= i < n && refs[i] == ref;
        assert refs[i] != refs[n];
      }
      KeepNone(k, trees, refs[..n]);
    } else {
      KeepOne(k, trees, refs[..n], one);
    }
  }

  lemma {:induction false} TextsBoth(trees: Trees, a: seq<Ref>, b: seq<Ref>)
    ensures L.Join(TextsAt(trees, a + b)) == L.Join(TextsAt(trees, a)) + L.Join(TextsAt(trees, b))
  {
    assert TextsAt(trees, a + b) == TextsAt(trees, a) + TextsAt(trees, b);
    L.JoinConcat(TextsAt(trees, a), TextsAt(trees, b));
  }

  lemma {:induction false} TextsOne(trees: Trees, one: Ref)
    ensures L.Join(TextsAt(trees, [one])) == TextAt(trees, one)
  {
    assert TextsAt(trees, [one]) == [TextAt(trees, one)];
    L.JoinOne(TextAt(trees, one));
  }

  lemma {:induction false} EventRefs(v: Json, t: nat)
    ensures var refs := RefsOf(t, Leaves(v, []));
            && DistinctRefs(refs)
            && (forall ref | ref in refs :: ref.event == t && IsLeaf(v, ref.place))
            && (forall place | IsLeaf(v, place) :: Ref(t, place) in refs)
  {
    var leaves := Leaves(v, []);
    var refs := RefsOf(t, leaves);
    LeavesAreDistinct(v, []);
    LeavesAreLeaves(v, []);
    forall ref | ref in refs ensures ref.event == t && IsLeaf(v, ref.place) {
      var i :| 0 <= i < |refs| && refs[i] == ref;
      assert leaves[i] in leaves && leaves[i].path[0..] == ref.place;
    }
    forall place | IsLeaf(v, place) ensures Ref(t, place) in refs {
      LeavesAreComplete(v, [], place);
      NothingConcat(place);
      var i :| 0 <= i < |leaves| && leaves[i].path == place;
      assert refs[i] == Ref(t, place);
    }
  }

  /** In one event the piece is at the place that the names lead to, or there is none. */
  lemma {:induction false} EventPiece(k: Key, trees: Trees, t: nat)
    requires !k.McpKey? && t < |trees| && trees[t].Some? && WellNamed(FamilyOfKey(k), trees[t].value, "")
    ensures var pieces := Keep(k, trees, RefsOf(t, Leaves(trees[t].value, [])));
            && L.Join(TextsAt(trees, pieces)) == TextOr(PieceOf(k, trees[t].value))
            && (pieces == [] <==> PieceOf(k, trees[t].value) == None)
  {
    hide WhereIs, Carries, Leaves, Follow, NamesOf, WellNamed, RefsOf;
    var v, family := trees[t].value, FamilyOfKey(k);
    var refs := RefsOf(t, Leaves(v, []));
    EventRefs(v, t);
    forall ref | ref in refs
      ensures IsPiece(k, trees, ref) <==> WhereIs(k, v) == Some(NamesOf(family, v, ref.place, ""))
      ensures Follow(family, v, NamesOf(family, v, ref.place, ""), "") == At(v, ref.place)
    {
      WhereIsIff(k, t, v, NamesOf(family, v, ref.place, ""));
      FollowNames(family, v, ref.place, "");
    }
    if WhereIs(k, v).Some? && Follow(family, v, WhereIs(k, v).value, "").Some?
       && Follow(family, v, WhereIs(k, v).value, "").value.Str? {
      OnePiece(k, trees, t, refs);
    } else {
      KeepNone(k, trees, refs);
      assert TextsAt(trees, []) == [];
    }
  }

  lemma {:induction false} OnePiece(k: Key, trees: Trees, t: nat, refs: seq<Ref>)
    requires t < |trees| && trees[t].Some? && WellNamed(FamilyOfKey(k), trees[t].value, "")
    requires DistinctRefs(refs) && forall place | IsLeaf(trees[t].value, place) :: Ref(t, place) in refs
    requires WhereIs(k, trees[t].value).Some?
    requires var x := Follow(FamilyOfKey(k), trees[t].value, WhereIs(k, trees[t].value).value, "");
             x.Some? && x.value.Str?
    requires forall ref | ref in refs ::
               && ref.event == t && IsLeaf(trees[t].value, ref.place)
               && (IsPiece(k, trees, ref) <==>
                   WhereIs(k, trees[t].value) == Some(NamesOf(FamilyOfKey(k), trees[t].value, ref.place, "")))
    ensures |Keep(k, trees, refs)| == 1
    ensures Some(L.Join(TextsAt(trees, Keep(k, trees, refs)))) == PieceOf(k, trees[t].value)
  {
    hide WhereIs, Carries, Follow, NamesOf, WellNamed, IsPiece, Keep;
    var v, family := trees[t].value, FamilyOfKey(k);
    var names := WhereIs(k, v).value;
    var place := FollowIsThere(family, v, names, "");
    var one := Ref(t, place);
    assert IsLeaf(v, place);
    forall ref | ref in refs ensures IsPiece(k, trees, ref) <==> ref == one {
      if NamesOf(family, v, ref.place, "") == names { NamesTellApart(family, v, ref.place, place, ""); }
    }
    KeepOne(k, trees, refs, one);
    TextsOne(trees, one);
  }

  ghost predicate AllWellNamed(family: Family, trees: Trees) {
    forall t | 0 <= t < |trees| && trees[t].Some? :: WellNamed(family, trees[t].value, "")
  }

  lemma {:induction false} FirstTrees(trees: Trees, n: nat)
    requires 0 < n <= |trees|
    ensures trees[..n] == trees[..n - 1] + [trees[n - 1]] && trees[..n][..n - 1] == trees[..n - 1]
  {}

  lemma {:induction false} AssembledUpTo(k: Key, trees: Trees, n: nat)
    requires !k.McpKey? && AllWellNamed(FamilyOfKey(k), trees) && n <= |trees|
    ensures L.Join(TextsAt(trees, Keep(k, trees, AllRefs(trees[..n])))) == Assembled(k, trees[..n])
    ensures Keep(k, trees, AllRefs(trees[..n])) == [] <==> !HasText(k, trees[..n])
  {
    hide Keep, PieceOf, HasText, RefsOf, WellNamed, Leaves, IsPiece, TextsAt;
    if n == 0 {
      assert trees[..0] == [] && AllRefs([]) == [];
      KeepNone(k, trees, []);
      NoTexts(trees);
      NothingHasText(k);
    } else {
      HasTextMore(k, trees[..n - 1], trees[n - 1]);
      AssembledUpTo(k, trees, n - 1);
      FirstTrees(trees, n);
      if trees[n - 1].Some? {
        var refs := RefsOf(n - 1, Leaves(trees[n - 1].value, []));
        KeepBoth(k, trees, AllRefs(trees[..n - 1]), refs);
        TextsBoth(trees, Keep(k, trees, AllRefs(trees[..n - 1])), Keep(k, trees, refs));
        EventPiece(k, trees, n - 1);
      } else {
        ConcatNothing(AllRefs(trees[..n - 1]));
      }
    }
  }

  lemma {:induction false} NothingHasText(k: Key)
    ensures !HasText(k, [])
  {}

  lemma {:induction false} HasTextMore(k: Key, trees: Trees, tree: Option<Json>)
    ensures HasText(k, trees + [tree]) <==> HasText(k, trees) || (tree.Some? && PieceOf(k, tree.value).Some?)
  {
    hide PieceOf;
    var all := trees + [tree];
    assert all[|trees|] == tree;
    if HasText(k, trees) {
      var t :| 0 <= t < |trees| && trees[t].Some? && PieceOf(k, trees[t].value).Some?;
      assert all[t] == trees[t];
    }
  }

  lemma {:induction false} NoTexts(trees: Trees)
    ensures L.Join(TextsAt(trees, [])) == ""
  {
    assert TextsAt(trees, []) == [];
  }

  /** What a client assembles by lookups are all the pieces of the text, joined in order. */
  lemma {:induction false} AssembledIsJoined(k: Key, trees: Trees)
    requires !k.McpKey? && AllWellNamed(FamilyOfKey(k), trees)
    ensures Assembled(k, trees) == ClientText(k, trees) && (PieceRefs(k, trees) == [] <==> !HasText(k, trees))
  {
    assert trees[..|trees|] == trees;
    AssembledUpTo(k, trees, |trees|);
  }

  // ---- Names are distinct in an accepted stream ----

  ghost predicate NoRepeats(v: Json)
    decreases v
  {
    && (v.Obj? ==> forall i, j | 0 <= i < j < |v.fields| :: v.fields[i].0 != v.fields[j].0)
    && (forall i | 0 <= i < Children(v) :: NoRepeats(Child(v, i)))
  }

  /** The parser's promise: an object with a repeated key is not accepted. */
  ghost predicate StrictParser(env: Env) {
    forall s: string | env.parse(s).Some? :: NoRepeats(env.parse(s).value)
  }

  lemma {:induction false} DecimalInjective(a: nat, b: nat)
    requires Decimal(a) == Decimal(b)
    ensures a == b
  {
    DecimalEnds(a);
    DecimalEnds(b);
    if a >= 10 && b >= 10 {
      DecimalSplits(Decimal(a / 10), Digit(a % 10), Decimal(b / 10), Digit(b % 10));
      DecimalInjective(a / 10, b / 10);
    }
    DigitInjective(a % 10, b % 10);
  }

  lemma {:induction false} DecimalEnds(n: nat)
    ensures Decimal(n) != "" && Decimal(n)[|Decimal(n)| - 1] == Digit(n % 10) && (|Decimal(n)| > 1 <==> n >= 10)
  {
    if n >= 10 { DecimalEnds(n / 10); }
  }

  lemma {:induction false} DecimalSplits(s: string, c: char, t: string, d: char)
    requires s + [c] == t + [d]
    ensures s == t && c == d
  {
    JoinHeads(s, [c], t, [d]) by { assert |s + [c]| == |t + [d]|; }
  }

  lemma {:induction false} DigitInjective(a: nat, b: nat)
    requires a < 10 && b < 10 && Digit(a) == Digit(b)
    ensures a == b
  {}

  lemma {:induction false} NewName(env: Env, v: Json, i: nat, seen: set<string>)
    requires v.Arr? && i < Children(v) && MemberName(env, v, i, true, seen).Ok?
    ensures var (name, seen') := MemberName(env, v, i, true, seen).value; name !in seen && seen' == seen + {name}
  {
    hide Index;
  }

  lemma {:induction false} NamedFrom(env: Env, c: Context, family: Family, v: Json, place: Path, path: seq<string>,
                                     i: nat, seen: set<string>)
    requires c.family == Some(family) && v.Arr? && Numbered(c.family, path)
    requires i <= Children(v) && CollectFrom(env, c, v, place, path, i, seen).Ok?
    ensures forall j | i <= j < Children(v) :: Called(family, v, j, LastOr(path, "")) !in seen
    ensures forall j, m | i <= j < m < Children(v) ::
              Called(family, v, j, LastOr(path, "")) != Called(family, v, m, LastOr(path, ""))
    decreases Children(v) - i
  {
    hide Collect, Numbered, Called, MemberName, LastOr;
    if i < Children(v) {
      var (name, seen') := MemberName(env, v, i, Numbered(c.family, path), seen).value;
      MemberIsCalled(env, family, v, i, path, seen);
      NewName(env, v, i, seen);
      NamedFrom(env, c, family, v, place, path, i + 1, seen');
    }
  }

  lemma {:induction false} PlainNames(family: Family, v: Json, i: nat, j: nat, under: string)
    requires v.Arr? && under !in IndexedLists(family) && i < j < Children(v)
    ensures Called(family, v, i, under) != Called(family, v, j, under)
  {
    if Decimal(i) == Decimal(j) { DecimalInjective(i, j); }
  }

  lemma {:induction false} NumberedIff(family: Family, path: seq<string>)
    ensures Numbered(Some(family), path) <==> LastOr(path, "") in IndexedLists(family)
  {
    assert |"choices"| == 7 && |"tool_calls"| == 10 && |"candidates"| == 10;
  }

  /** Collected: its members have distinct names. */
  lemma {:induction false} CollectedNames(env: Env, c: Context, family: Family, v: Json, place: Path, path: seq<string>)
    requires c.family == Some(family) && (path == [] ==> v.Obj?) && Collect(env, c, v, place, path).Ok? && NoRepeats(v)
    ensures forall i, j | 0 <= i < j < Children(v) ::
              Called(family, v, i, LastOr(path, "")) != Called(family, v, j, LastOr(path, ""))
  {
    hide Numbered, IndexedLists, CollectFrom, LastOr;
    NumberedIff(family, path);
    if v.Arr? {
      if Numbered(c.family, path) {
        NamedFrom(env, c, family, v, place, path, 0, {});
      } else {
        forall i, j | 0 <= i < j < Children(v)
          ensures Called(family, v, i, LastOr(path, "")) != Called(family, v, j, LastOr(path, ""))
        {
          PlainNames(family, v, i, j, LastOr(path, ""));
        }
      }
    }
  }

  lemma {:induction false} CollectWellNamed(env: Env, c: Context, family: Family, v: Json, place: Path,
                                            path: seq<string>)
    requires c.family == Some(family) && (path == [] ==> v.Obj?) && Collect(env, c, v, place, path).Ok? && NoRepeats(v)
    ensures WellNamed(family, v, LastOr(path, ""))
    decreases v, 1, 0
  {
    hide CollectFrom, Called, LastOr;
    CollectedNames(env, c, family, v, place, path);
    if v.Arr? || v.Obj? { CollectFromWellNamed(env, c, family, v, place, path, 0, {}); }
  }

  lemma {:induction false} LastIs(path: seq<string>, name: string)
    ensures LastOr(path + [name], "") == name
  {}

  lemma {:induction false} CollectFromWellNamed(env: Env, c: Context, family: Family, v: Json, place: Path,
                                                path: seq<string>, i: nat, seen: set<string>)
    requires c.family == Some(family) && NoRepeats(v)
    requires i <= Children(v) && CollectFrom(env, c, v, place, path, i, seen).Ok?
    ensures forall j | i <= j < Children(v) :: WellNamed(family, Child(v, j), Called(family, v, j, LastOr(path, "")))
    decreases v, 0, Children(v) - i
  {
    hide Collect, Called, MemberName, WellNamed, Numbered, LastOr;
    if i < Children(v) {
      var (name, seen') := MemberName(env, v, i, Numbered(c.family, path), seen).value;
      MemberIsCalled(env, family, v, i, path, seen);
      CollectWellNamed(env, c, family, Child(v, i), place + [i], path + [name]);
      LastIs(path, name);
      CollectFromWellNamed(env, c, family, v, place, path, i + 1, seen');
    }
  }
}
