/** Writing masks back: every lane is inspected as one text and its fragments are replaced in the
    events they came from. */
module SseRewrite {
  import opened Wrappers
  import opened Json
  import Spans
  import L = Lanes
  import opened RedactJson
  import opened SseLanes

  /** The parsed payload of each event; None for events without one. */
  type Trees = seq<Option<Json>>

  function Read(trees: Trees, ref: Ref): Option<Json> {
    if ref.event < |trees| && trees[ref.event].Some? then At(trees[ref.event].value, ref.place) else None
  }

  predicate IsText(trees: Trees, ref: Ref) { Read(trees, ref).Some? && Read(trees, ref).value.Str? }

  /** parent[key] = text */
  function Write(trees: Trees, ref: Ref, text: string): (r: Trees)
    ensures |r| == |trees|
  {
    if ref.event < |trees| && trees[ref.event].Some?
    then trees[ref.event := Some(Put(trees[ref.event].value, ref.place, text))]
    else trees
  }

  function WriteAll(trees: Trees, refs: seq<Ref>, texts: seq<string>): (r: Trees)
    requires |refs| == |texts|
    ensures |r| == |trees|
    decreases |refs|
  {
    if refs == [] then trees else WriteAll(Write(trees, refs[0], texts[0]), refs[1..], texts[1..])
  }

  ghost predicate SameShape(a: Trees, b: Trees) {
    && |a| == |b|
    && forall i | 0 <= i < |a| :: a[i].Some? == b[i].Some? && (a[i].Some? ==> Shape(a[i].value) == Shape(b[i].value))
  }

  ghost predicate DistinctRefs(refs: seq<Ref>) { forall i, j | 0 <= i < j < |refs| :: refs[i] != refs[j] }

  lemma {:induction false} WriteOne(trees: Trees, ref: Ref, text: string)
    requires IsText(trees, ref)
    ensures var out := Write(trees, ref, text);
            && SameShape(out, trees)
            && Read(out, ref) == Some(Str(text))
            && forall other | other != ref ::
                 IsText(out, other) == IsText(trees, other)
                     && (IsText(trees, other) ==> Read(out, other) == Read(trees, other))
  {
    var tree := trees[ref.event].value;
    var out := Write(trees, ref, text);
    PutAtSelf(tree, ref.place, text);
    PutKeepsShape(tree, ref.place, text);
    forall other | other != ref
      ensures IsText(out, other) == IsText(trees, other)
          && (IsText(trees, other) ==> Read(out, other) == Read(trees, other))
    {
      if other.event == ref.event { PutElsewhere(tree, ref.place, text, other.place); }
    }
  }

  /** The effect of writing these texts at these places. */
  ghost predicate Wrote(trees: Trees, out: Trees, refs: seq<Ref>, texts: seq<string>)
    requires |refs| == |texts|
  {
    && SameShape(out, trees)
    && (forall i | 0 <= i < |refs| :: Read(out, refs[i]) == Some(Str(texts[i])))
    && (forall other: Ref :: IsText(out, other) == IsText(trees, other))
    && (forall other | other !in refs && IsText(trees, other) :: Read(out, other) == Read(trees, other))
  }

  /** Writing distinct string leaves: each holds its new text, every other leaf is untouched and
      nothing but leaves changes. */
  lemma {:induction false} WriteMany(trees: Trees, refs: seq<Ref>, texts: seq<string>)
    requires |refs| == |texts| && DistinctRefs(refs) && forall r | r in refs :: IsText(trees, r)
    ensures Wrote(trees, WriteAll(trees, refs, texts), refs, texts)
    decreases |refs|
  {
    if refs != [] {
      var next := Write(trees, refs[0], texts[0]);
      WriteOne(trees, refs[0], texts[0]);
      assert forall r | r in refs[1..] :: r in refs && r != refs[0];
      WriteMany(next, refs[1..], texts[1..]);
      WroteMore(trees, next, WriteAll(trees, refs, texts), refs, texts);
    }
  }

  lemma {:induction false} WroteMore(trees: Trees, next: Trees, out: Trees, refs: seq<Ref>, texts: seq<string>)
    requires |refs| == |texts| > 0 && DistinctRefs(refs) && IsText(trees, refs[0])
    requires SameShape(next, trees) && Read(next, refs[0]) == Some(Str(texts[0]))
    requires forall other | other != refs[0] ::
               IsText(next, other) == IsText(trees, other)
                   && (IsText(trees, other) ==> Read(next, other) == Read(trees, other))
    requires Wrote(next, out, refs[1..], texts[1..])
    ensures Wrote(trees, out, refs, texts)
  {
    assert refs == [refs[0]] + refs[1..];
    assert refs[0] !in refs[1..];
    forall i | 0 <= i < |refs| ensures Read(out, refs[i]) == Some(Str(texts[i])) {
      if i > 0 { assert Read(out, refs[1..][i - 1]) == Some(Str(texts[1..][i - 1])); }
    }
  }

  // ---- Grouping entries by lane ----

  function Members(entries: seq<Entry>, lane: Lane): seq<Entry> {
    if entries == [] then []
    else
      var n := |entries| - 1;
      Members(entries[..n], lane) + (if entries[n].lane == lane then [entries[n]] else [])
  }

  function LaneOrder(entries: seq<Entry>): seq<Lane> {
    if entries == [] then []
    else
      var n := |entries| - 1;
      var order := LaneOrder(entries[..n]);
      if entries[n].lane in order then order else order + [entries[n].lane]
  }

  /** lanes.setdefault((lane, kind), []).append(...) */
  method Group(entries: seq<Entry>) returns (order: seq<Lane>, groups: map<Lane, seq<Entry>>)
    ensures order == LaneOrder(entries)
    ensures forall lane | lane in order :: lane in groups && groups[lane] == Members(entries, lane)
  {
    order, groups := [], map[];
    for i := 0 to |entries|
      invariant order == LaneOrder(entries[..i])
      invariant forall lane :: lane in groups <==> lane in order
      invariant forall lane | lane in order :: groups[lane] == Members(entries[..i], lane)
      invariant forall lane | lane !in order :: Members(entries[..i], lane) == []
    {
      assert entries[..i + 1][..i] == entries[..i];
      var lane := entries[i].lane;
      if lane !in groups { order, groups := order + [lane], groups[lane := []]; }
      groups := groups[lane := groups[lane] + [entries[i]]];
    }
    assert entries[..|entries|] == entries;
  }

  function Refs(entries: seq<Entry>): seq<Ref> { seq(|entries|, i requires 0 <= i < |entries| => entries[i].ref) }

  function Texts(entries: seq<Entry>): seq<string> { seq(|entries|, i requires 0 <= i < |entries| => entries[i].text) }

  lemma {:induction false} MembersBelong(entries: seq<Entry>, lane: Lane)
    ensures forall e | e in Members(entries, lane) :: e in entries && e.lane == lane
    ensures DistinctRefs(Refs(entries)) ==> DistinctRefs(Refs(Members(entries, lane)))
  {
    if entries != [] {
      var n := |entries| - 1;
      MembersBelong(entries[..n], lane);
      var before := Members(entries[..n], lane);
      if DistinctRefs(Refs(entries)) {
        assert forall i | 0 <= i < n :: Refs(entries[..n])[i] == Refs(entries)[i];
        forall i | 0 <= i < |before| ensures before[i].ref != entries[n].ref {
          assert before[i] in entries[..n];
          var k :| 0 <= k < n && entries[k] == before[i];
          assert Refs(entries)[k] != Refs(entries)[n];
        }
        var all := Members(entries, lane);
        assert forall i | 0 <= i < |before| :: Refs(all)[i] == Refs(before)[i];
        assert forall i | |before| <= i < |all| :: Refs(all)[i] == entries[n].ref;
      }
    }
  }

  lemma {:induction false} LaneOrderIsComplete(entries: seq<Entry>)
    ensures var order := LaneOrder(entries);
            && (forall i, j | 0 <= i < j < |order| :: order[i] != order[j])
            && (forall e | e in entries :: e.lane in order)
            && (forall l | l in order :: exists e :: e in entries && e.lane == l)
  {
    if entries != [] {
      var n := |entries| - 1;
      LaneOrderIsComplete(entries[..n]);
      assert entries == entries[..n] + [entries[n]];
      forall l | l in LaneOrder(entries) ensures exists e :: e in entries && e.lane == l {
        if l in LaneOrder(entries[..n]) {
          var e :| e in entries[..n] && e.lane == l;
          assert e in entries;
        } else {
          assert entries[n] in entries;
        }
      }
    }
  }

  // ---- One lane ----

  /** The new fragments of a lane, or None when it stays as it is. */
  function LaneTexts(env: Env, kind: Kind, texts: seq<string>): Result<Option<seq<string>>> {
    var joined := L.Join(texts);
    if env.screen(Str(joined)) then Err("unsafe_content")
    else if kind.JsonKind? then
      match env.parse(joined)
      case None => Err("invalid_json")
      case Some(value) =>
        if env.screen(value) then Err("unsafe_content")
        else
          match RedactTree(env, value, None, [], false)
          case Err(e) => Err(e)
          case Ok(modified) =>
            Ok(if modified == value then None else Some(L.Pieces(texts, Encode(modified), 0)))
    else
      var findings := env.find(joined);
      if findings != [] && env.action.Block? then Err("pii_block_policy")
      else if findings != [] && kind.StructuralKind? then Err("pii_in_sse_structural_field")
      else Ok(if findings == [] then None else Some(L.StarredLane(texts, 0, findings)))
  }

  /** What an accepted lane may look like afterwards, in terms of the text a client joins. */
  ghost predicate LaneOk(env: Env, kind: Kind, before: seq<string>, after: seq<string>) {
    var joined := L.Join(before);
    && |after| == |before|
    && (kind.JsonKind? ==>
          && env.parse(joined).Some?
          && var redacted := RedactTree(env, env.parse(joined).value, None, [], false);
          && redacted.Ok?
          && (if redacted.value == env.parse(joined).value then after == before
              else L.Join(after) == Encode(redacted.value)))
    && (!kind.JsonKind? ==>
          && (env.find(joined) != [] ==> env.action.Redact? && kind.TextKind?)
          && (forall i | 0 <= i < |before| :: |after[i]| == |before[i]|)
          && L.Join(after) == L.Starred(joined, env.find(joined)))
  }

  function After(texts: seq<string>, change: Option<seq<string>>): seq<string> {
    if change.Some? then change.value else texts
  }

  lemma {:induction false} LaneTextsOk(env: Env, kind: Kind, texts: seq<string>)
    requires texts != [] && LaneTexts(env, kind, texts).Ok?
    ensures LaneOk(env, kind, texts, After(texts, LaneTexts(env, kind, texts).value))
  {
    var joined := L.Join(texts);
    if kind.JsonKind? {
      var redacted := RedactTree(env, env.parse(joined).value, None, [], false);
      if redacted.value != env.parse(joined).value {
        L.PiecesSpellReplacement(texts, Encode(redacted.value), 0);
      }
    } else {
      L.FragmentsSpellStarredText(texts, "", env.find(joined));
      assert "" + joined == joined;
      if env.find(joined) == [] { assert L.Starred(joined, []) == joined; }
    }
  }

  // ---- All lanes ----

  function RewriteLane(env: Env, trees: Trees, members: seq<Entry>, kind: Kind): Result<(Trees, bool)> {
    match LaneTexts(env, kind, Texts(members))
    case Err(e) => Err(e)
    case Ok(None) => Ok((trees, false))
    case Ok(Some(texts)) =>
      if |texts| == |members| then Ok((WriteAll(trees, Refs(members), texts), true)) else Err("inspection_unavailable")
  }

  /** The loop over the lanes. */
  function RewriteLanes(env: Env, trees: Trees, entries: seq<Entry>, order: seq<Lane>): Result<(Trees, bool)>
    decreases |order|
  {
    if order == [] then Ok((trees, false))
    else
      match RewriteLane(env, trees, Members(entries, order[0]), order[0].kind)
      case Err(e) => Err(e)
      case Ok((next, hit)) =>
        match RewriteLanes(env, next, entries, order[1..])
        case Err(e) => Err(e)
        case Ok((out, more)) => Ok((out, hit || more))
  }

  function TextAt(trees: Trees, ref: Ref): string { if IsText(trees, ref) then Read(trees, ref).value.s else "" }

  function ReadTexts(trees: Trees, members: seq<Entry>): seq<string> {
    seq(|members|, i requires 0 <= i < |members| => TextAt(trees, members[i].ref))
  }

  /** Entries as collect leaves them: distinct places, and those of the lanes still to be
      rewritten hold the recorded text. */
  ghost predicate Recorded(trees: Trees, entries: seq<Entry>, order: seq<Lane>) {
    && DistinctRefs(Refs(entries))
    && (forall e | e in entries :: IsText(trees, e.ref))
    && (forall e | e in entries && e.lane in order :: Read(trees, e.ref) == Some(Str(e.text)))
    && (forall i, j | 0 <= i < j < |order| :: order[i] != order[j])
    && (forall l | l in order :: Members(entries, l) != [])
  }

  /** A place that belongs to none of these lanes. */
  ghost predicate Outside(ref: Ref, entries: seq<Entry>, order: seq<Lane>) {
    forall e | e in entries && e.lane in order :: e.ref != ref
  }

  ghost predicate Frame(trees: Trees, out: Trees, entries: seq<Entry>, order: seq<Lane>) {
    && SameShape(out, trees)
    && (forall ref: Ref :: IsText(out, ref) == IsText(trees, ref))
    && (forall ref: Ref | IsText(trees, ref) && Outside(ref, entries, order) :: Read(out, ref) == Read(trees, ref))
  }

  lemma {:induction false} SameRefsSameEntry(entries: seq<Entry>, a: Entry, b: Entry)
    requires DistinctRefs(Refs(entries)) && a in entries && b in entries && a.ref == b.ref
    ensures a == b
  {
    var i :| 0 <= i < |entries| && entries[i] == a;
    var j :| 0 <= j < |entries| && entries[j] == b;
    assert Refs(entries)[i] == Refs(entries)[j];
  }

  /** One lane: its fragments end as LaneOk demands, everything outside it is untouched. */
  lemma {:induction false} LaneRewritten(env: Env, trees: Trees, entries: seq<Entry>, lane: Lane)
    requires Recorded(trees, entries, [lane]) && RewriteLane(env, trees, Members(entries, lane), lane.kind).Ok?
    ensures var members := Members(entries, lane);
            var (out, changed) := RewriteLane(env, trees, members, lane.kind).value;
            && Frame(trees, out, entries, [lane])
            && LaneOk(env, lane.kind, Texts(members), ReadTexts(out, members))
            && (!changed ==> out == trees)
  {
    var members := Members(entries, lane);
    MembersBelong(entries, lane);
    var change := LaneTexts(env, lane.kind, Texts(members)).value;
    var (out, changed) := RewriteLane(env, trees, members, lane.kind).value;
    LaneTextsOk(env, lane.kind, Texts(members));
    assert lane in [lane];
    if change.None? {
      assert ReadTexts(out, members) == Texts(members) by {
        forall i | 0 <= i < |members| ensures TextAt(out, members[i].ref) == members[i].text {
          assert members[i] in members;
        }
      }
    } else {
      RefsAreTexts(trees, entries, members);
      WriteMany(trees, Refs(members), change.value);
      assert ReadTexts(out, members) == change.value by {
        forall i | 0 <= i < |members| ensures TextAt(out, members[i].ref) == change.value[i] {
          assert Refs(members)[i] == members[i].ref;
        }
      }
      forall ref: Ref | IsText(trees, ref) && Outside(ref, entries, [lane]) ensures Read(out, ref) == Read(trees, ref) {
        MembersHaveNot(members, entries, lane, ref);
      }
    }
  }

  lemma {:induction false} RefsAreTexts(trees: Trees, entries: seq<Entry>, members: seq<Entry>)
    requires (forall e | e in members :: e in entries) && forall e | e in entries :: IsText(trees, e.ref)
    ensures forall r | r in Refs(members) :: IsText(trees, r)
  {
    forall r | r in Refs(members) ensures IsText(trees, r) {
      var i :| 0 <= i < |members| && Refs(members)[i] == r;
      assert members[i] in members;
    }
  }

  lemma {:induction false} MembersHaveNot(members: seq<Entry>, entries: seq<Entry>, lane: Lane, ref: Ref)
    requires forall e | e in members :: e in entries && e.lane == lane
    requires Outside(ref, entries, [lane])
    ensures ref !in Refs(members)
  {
    assert lane in [lane];
    forall i | 0 <= i < |members| ensures Refs(members)[i] != ref { assert members[i] in members; }
  }

  /** All lanes: each lane's fragments are as LaneOk demands, and only string leaves of these
      lanes may differ. */
  lemma {:induction false} LanesRewritten(env: Env, trees: Trees, entries: seq<Entry>, order: seq<Lane>)
    requires Recorded(trees, entries, order) && RewriteLanes(env, trees, entries, order).Ok?
    ensures var (out, changed) := RewriteLanes(env, trees, entries, order).value;
            && Frame(trees, out, entries, order)
            && (forall l | l in order ::
                  LaneOk(env, l.kind, Texts(Members(entries, l)), ReadTexts(out, Members(entries, l))))
            && (!changed ==> out == trees)
    decreases |order|
  {
    if order != [] {
      var lane, rest := order[0], order[1..];
      var (next, hit) := RewriteLane(env, trees, Members(entries, lane), lane.kind).value;
      RecordedHead(trees, entries, order);
      LaneRewritten(env, trees, entries, lane);
      RecordedTail(trees, next, entries, order);
      LanesRewritten(env, next, entries, rest);
      var (out, more) := RewriteLanes(env, next, entries, rest).value;
      FrameTwice(trees, next, out, entries, order);
      LaneUntouched(next, out, entries, order);
      assert order == [lane] + rest;
    }
  }

  // ---- Which lanes are rewritten ----

  /** Is there something to redact in a lane?  Findings in the joined text, or JSON that redaction
      changes. */
  predicate Hits(env: Env, kind: Kind, texts: seq<string>) {
    var joined := L.Join(texts);
    if kind.JsonKind? then
      && env.parse(joined).Some?
      && var redacted := RedactTree(env, env.parse(joined).value, None, [], false);
      && redacted.Ok? && redacted.value != env.parse(joined).value
    else env.find(joined) != []
  }

  ghost predicate AnyHits(env: Env, entries: seq<Entry>, order: seq<Lane>) {
    exists l | l in order :: Hits(env, l.kind, Texts(Members(entries, l)))
  }

  lemma {:induction false} LaneChangedIff(env: Env, trees: Trees, members: seq<Entry>, kind: Kind)
    requires RewriteLane(env, trees, members, kind).Ok?
    ensures RewriteLane(env, trees, members, kind).value.1 <==> Hits(env, kind, Texts(members))
  {}

  /** A stream counts as changed exactly when some lane has something to redact. */
  lemma {:induction false} ChangedIffAnyHits(env: Env, trees: Trees, entries: seq<Entry>, order: seq<Lane>)
    requires RewriteLanes(env, trees, entries, order).Ok?
    ensures RewriteLanes(env, trees, entries, order).value.1 <==> AnyHits(env, entries, order)
    decreases |order|
  {
    hide RewriteLane, Hits;
    if order != [] {
      var lane := order[0];
      LaneChangedIff(env, trees, Members(entries, lane), lane.kind);
      var next := RewriteLane(env, trees, Members(entries, lane), lane.kind).value.0;
      ChangedIffAnyHits(env, next, entries, order[1..]);
      assert order == [lane] + order[1..];
    }
  }

  /** In a JSON lane whose strings do not spell the mask there is something to redact exactly when
      some string of the parsed value has a finding. */
  lemma {:induction false} JsonLaneHitsIff(env: Env, texts: seq<string>)
    requires Sound(env) && LaneTexts(env, JsonKind, texts).Ok? && Unmarked(env.parse(L.Join(texts)).value)
    ensures Hits(env, JsonKind, texts) <==> !Clean(env, env.parse(L.Join(texts)).value)
  {
    UnchangedTreeIffClean(env, env.parse(L.Join(texts)).value, None, []);
  }

  lemma {:induction false} RecordedHead(trees: Trees, entries: seq<Entry>, order: seq<Lane>)
    requires order != [] && Recorded(trees, entries, order)
    ensures Recorded(trees, entries, [order[0]])
  {
    assert order[0] in order;
  }

  lemma {:induction false} RecordedTail(trees: Trees, next: Trees, entries: seq<Entry>, order: seq<Lane>)
    requires order != [] && Recorded(trees, entries, order) && Frame(trees, next, entries, [order[0]])
    ensures Recorded(next, entries, order[1..])
  {
    var lane, rest := order[0], order[1..];
    assert forall l | l in rest :: l in order;
    forall e | e in entries && e.lane in rest ensures Read(next, e.ref) == Some(Str(e.text)) {
      assert e.lane != lane;
      forall f | f in entries && f.lane in [lane] ensures f.ref != e.ref {
        if f.ref == e.ref { SameRefsSameEntry(entries, e, f); }
      }
      assert Outside(e.ref, entries, [lane]);
    }
  }

  lemma {:induction false} FrameTwice(trees: Trees, next: Trees, out: Trees, entries: seq<Entry>, order: seq<Lane>)
    requires order != [] && Frame(trees, next, entries, [order[0]]) && Frame(next, out, entries, order[1..])
    ensures Frame(trees, out, entries, order)
  {
    assert forall l | l in order[1..] :: l in order;
    forall ref: Ref | IsText(trees, ref) && Outside(ref, entries, order) ensures Read(out, ref) == Read(trees, ref) {
      assert order[0] in order;
      assert Outside(ref, entries, [order[0]]) && Outside(ref, entries, order[1..]);
    }
  }

  /** The later lanes do not disturb the first. */
  lemma {:induction false} LaneUntouched(next: Trees, out: Trees, entries: seq<Entry>, order: seq<Lane>)
    requires order != [] && (forall i, j | 0 <= i < j < |order| :: order[i] != order[j])
    requires DistinctRefs(Refs(entries)) && (forall e | e in entries :: IsText(next, e.ref))
    requires Frame(next, out, entries, order[1..])
    ensures ReadTexts(out, Members(entries, order[0])) == ReadTexts(next, Members(entries, order[0]))
  {
    var lane := order[0];
    var members := Members(entries, lane);
    MembersBelong(entries, lane);
    forall i | 0 <= i < |members| ensures TextAt(out, members[i].ref) == TextAt(next, members[i].ref) {
      assert members[i] in members;
      forall f | f in entries && f.lane in order[1..] ensures f.ref != members[i].ref {
        if f.ref == members[i].ref { SameRefsSameEntry(entries, members[i], f); }
      }
      assert Outside(members[i].ref, entries, order[1..]);
    }
  }
}
