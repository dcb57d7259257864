/** Path-restricted redaction of a JSON tree. */
module RedactJson {
  import opened Wrappers
  import opened Json
  import opened Spans

  datatype Action = Redact | Block

  /** The parts of the engine this model does not open: the detector, strict_json on a string,
      and the screen for secrets and suspicious instructions (true means it raises). */
  datatype Env = Env(find: string -> seq<Finding>, parse: string -> Option<Json>, screen: Json -> bool, action: Action)

  /** The detector's promise: findings lie inside the text. */
  ghost predicate Sound(env: Env) { forall s: string :: InRange(env.find(s), |s|) }

  // ---- field_allowed ----

  function Find(s: string, c: char): (k: nat)
    ensures k <= |s|
  {
    if s == "" || s[0] == c then 0 else 1 + Find(s[1..], c)
  }

  /** pattern.split("/") */
  function SplitSlash(s: string): (parts: seq<string>)
    ensures parts != []
    decreases |s|
  {
    var k := Find(s, '/');
    if k == |s| then [s] else [s[..k]] + SplitSlash(s[k + 1..])
  }

  /** part.replace(a + b, c) for a two-character pattern that does not overlap itself. */
  function Replace(s: string, a: char, b: char, c: char): string {
    if |s| < 2 then s
    else if s[0] == a && s[1] == b then [c] + Replace(s[2..], a, b, c)
    else [s[0]] + Replace(s[1..], a, b, c)
  }

  function PatternParts(pattern: string): seq<string> {
    var parts := SplitSlash(pattern)[1..];
    seq(|parts|, i requires 0 <= i < |parts| => Replace(Replace(parts[i], '~', '1', '/'), '~', '0', '~'))
  }

  predicate Matches(path: seq<string>, parts: seq<string>) {
    |path| == |parts| && forall i | 0 <= i < |path| :: parts[i] == "*" || parts[i] == path[i]
  }

  predicate FieldAllowed(path: seq<string>, patterns: seq<string>) {
    exists k | 0 <= k < |patterns| :: Matches(path, PatternParts(patterns[k]))
  }

  predicate Allowed(path: seq<string>, fields: Option<seq<string>>) {
    fields.Some? ==> FieldAllowed(path, fields.value)
  }

  // ---- _redact_json ----

  function NameOf(v: Json, i: nat): string
    requires i < Children(v)
  {
    if v.Obj? then v.fields[i].0 else Decimal(i)
  }

  predicate IsArguments(path: seq<string>, arguments: bool) {
    arguments && path != [] && path[|path| - 1] == "arguments"
  }

  function RedactText(env: Env, s: string, fields: Option<seq<string>>, path: seq<string>): Result<Json> {
    var findings := env.find(s);
    if findings == [] then Ok(Str(s))
    else if env.action.Block? then Err("pii_block_policy")
    else if !Allowed(path, fields) then Err("pii_in_nonredactable_field")
    else Ok(Str(Mask(s, findings)))
  }

  function RedactTree(env: Env, v: Json, fields: Option<seq<string>>, path: seq<string>, arguments: bool): Result<Json>
    decreases arguments, v, 1, 0
  {
    match v
    case Str(s) =>
      if IsArguments(path, arguments) then
        match env.parse(s)
        case None => Err("invalid_json")
        case Some(decoded) =>
          if env.screen(decoded) then Err("unsafe_content")
          else StoreArguments(s, decoded, RedactTree(env, decoded, None, [], false), fields, path)
      else RedactText(env, s, fields, path)
    case Int(n) => if env.find(IntText(n)) != [] then Err("pii_in_numeric_field") else Ok(v)
    case Float(text) => if env.find(text) != [] then Err("pii_in_numeric_field") else Ok(v)
    case Null => Ok(v)
    case Bool(_) => Ok(v)
    case Arr(_) =>
      (match RedactFrom(env, v, fields, path, arguments, 0)
       case Err(e) => Err(e)
       case Ok(children) => Ok(Arr(children)))
    case Obj(_) =>
      match RedactFrom(env, v, fields, path, arguments, 0)
      case Err(e) => Err(e)
      case Ok(children) => Ok(WithChildren(v, children))
  }

  /** A tool's arguments are JSON inside a JSON string: redacted as a tree, stored as text. */
  function StoreArguments(s: string, decoded: Json, redacted: Result<Json>, fields: Option<seq<string>>,
                          path: seq<string>): Result<Json>
  {
    match redacted
    case Err(e) => Err(e)
    case Ok(modified) =>
      if modified == decoded then Ok(Str(s))
      else if !Allowed(path, fields) then Err("pii_in_nonredactable_field")
      else Ok(Str(Encode(modified)))
  }

  function WithChildren(v: Json, children: seq<Json>): Json
    requires v.Obj? && |children| == |v.fields|
  {
    Obj(seq(|v.fields|, i requires 0 <= i < |v.fields| => (v.fields[i].0, children[i])))
  }

  /** The members from position i on. */
  function RedactFrom(env: Env, v: Json, fields: Option<seq<string>>, path: seq<string>, arguments: bool, i: nat)
    : (r: Result<seq<Json>>)
    requires i <= Children(v)
    ensures r.Ok? ==> |r.value| == Children(v) - i
    decreases arguments, v, 0, Children(v) - i
  {
    if i == Children(v) then Ok([])
    else if v.Obj? && env.find(v.fields[i].0) != [] then Err("pii_in_structural_field")
    else
      match RedactTree(env, Child(v, i), fields, path + [NameOf(v, i)], arguments)
      case Err(e) => Err(e)
      case Ok(child) =>
        match RedactFrom(env, v, fields, path, arguments, i + 1)
        case Err(e) => Err(e)
        case Ok(rest) => Ok([child] + rest)
  }

  // ---- What a successful redaction did ----

  lemma {:induction false} RedactFromChild(env: Env, v: Json, fields: Option<seq<string>>, path: seq<string>,
                                           arguments: bool, i: nat, j: nat)
    requires i <= j < Children(v) && RedactFrom(env, v, fields, path, arguments, i).Ok?
    ensures RedactTree(env, Child(v, j), fields, path + [NameOf(v, j)], arguments)
         == Ok(RedactFrom(env, v, fields, path, arguments, i).value[j - i])
    ensures v.Obj? ==> env.find(v.fields[j].0) == []
    decreases j - i
  {
    hide RedactTree, Child, NameOf;
    if i < j { RedactFromChild(env, v, fields, path, arguments, i + 1, j); }
  }

  /** Containers keep their kind, size, keys and key order; each member is redacted on its own
      path, and no key holds a finding. */
  lemma {:induction false} RedactedMember(env: Env, v: Json, fields: Option<seq<string>>, path: seq<string>,
                                          arguments: bool, j: nat)
    requires RedactTree(env, v, fields, path, arguments).Ok? && j < Children(v)
    ensures var w := RedactTree(env, v, fields, path, arguments).value;
            && w.Arr? == v.Arr? && w.Obj? == v.Obj? && Children(w) == Children(v)
            && NameOf(w, j) == NameOf(v, j)
            && (v.Obj? ==> env.find(v.fields[j].0) == [])
            && RedactTree(env, Child(v, j), fields, path + [NameOf(v, j)], arguments) == Ok(Child(w, j))
  {
    RedactFromChild(env, v, fields, path, arguments, 0, j);
  }

  /** The names on the way to a place, as the engine's path spells them. */
  function NamesAt(v: Json, place: Path): seq<string>
    requires At(v, place).Some?
  {
    if place == [] then [] else [NameOf(v, place[0])] + NamesAt(Child(v, place[0]), place[1..])
  }

  /** What may have happened to one string leaf at a path. */
  ghost predicate LeafOk(env: Env, fields: Option<seq<string>>, path: seq<string>, arguments: bool,
                         before: string, after: string)
  {
    if IsArguments(path, arguments) then
      && env.parse(before).Some?
      && var decoded := env.parse(before).value;
      && var redacted := RedactTree(env, decoded, None, [], false);
      && redacted.Ok?
      && (if redacted.value == decoded then after == before
          else after == Encode(redacted.value) && env.action.Redact? && Allowed(path, fields))
    else if env.find(before) == [] then after == before
    else env.action.Redact? && Allowed(path, fields) && after == Masked(before, Cover(env.find(before), |before|), 0)
  }

  /** A string with findings is masked exactly, at an allowed path and under the redact action;
      every other string is untouched. */
  lemma {:induction false} RedactedLeaf(env: Env, v: Json, fields: Option<seq<string>>, path: seq<string>,
                                        arguments: bool, place: Path)
    requires Sound(env) && RedactTree(env, v, fields, path, arguments).Ok? && IsLeaf(v, place)
    ensures var w := RedactTree(env, v, fields, path, arguments).value;
            && IsLeaf(w, place)
            && LeafOk(env, fields, path + NamesAt(v, place), arguments, At(v, place).value.s, At(w, place).value.s)
    decreases |place|
  {
    hide LeafOk, RedactTree;
    if place == [] {
      assert path + NamesAt(v, place) == path;
      RedactedString(env, v.s, fields, path, arguments);
    } else {
      RedactedMember(env, v, fields, path, arguments, place[0]);
      RedactedLeaf(env, Child(v, place[0]), fields, path + [NameOf(v, place[0])], arguments, place[1..]);
      assert path + [NameOf(v, place[0])] + NamesAt(Child(v, place[0]), place[1..]) == path + NamesAt(v, place);
    }
  }

  lemma {:induction false} RedactedString(env: Env, s: string, fields: Option<seq<string>>, path: seq<string>,
                                          arguments: bool)
    requires Sound(env) && RedactTree(env, Str(s), fields, path, arguments).Ok?
    ensures var w := RedactTree(env, Str(s), fields, path, arguments).value;
            w.Str? && LeafOk(env, fields, path, arguments, s, w.s)
  {
    if IsArguments(path, arguments) {
      var decoded := env.parse(s).value;
      if env.action.Block? { BlockNeverRewrites(env, decoded, None, [], false); }
    } else if env.find(s) != [] {
      MaskMeaning(s, env.find(s));
    }
  }

  /** Under the block action a redaction that returns changes nothing. */
  lemma {:induction false} BlockNeverRewrites(env: Env, v: Json, fields: Option<seq<string>>, path: seq<string>,
                                              arguments: bool)
    requires env.action.Block? && RedactTree(env, v, fields, path, arguments).Ok?
    ensures RedactTree(env, v, fields, path, arguments).value == v
    decreases arguments, v
  {
    var w := RedactTree(env, v, fields, path, arguments).value;
    if v.Str? {
      if IsArguments(path, arguments) {
        BlockNeverRewrites(env, env.parse(v.s).value, None, [], false);
      }
    } else {
      forall j | 0 <= j < Children(v) ensures Child(w, j) == Child(v, j) && NameOf(w, j) == NameOf(v, j) {
        RedactedMember(env, v, fields, path, arguments, j);
        BlockNeverRewrites(env, Child(v, j), fields, path + [NameOf(v, j)], arguments);
      }
      SameMembers(env, v, fields, path, arguments);
    }
  }

  lemma {:induction false} SameMembers(env: Env, v: Json, fields: Option<seq<string>>, path: seq<string>,
                                       arguments: bool)
    requires !v.Str? && RedactTree(env, v, fields, path, arguments).Ok?
    requires var w := RedactTree(env, v, fields, path, arguments).value;
             Children(w) == Children(v) ==> forall j | 0 <= j < Children(v) :: Child(w, j) == Child(v, j)
    ensures RedactTree(env, v, fields, path, arguments).value == v
  {
    var w := RedactTree(env, v, fields, path, arguments).value;
    if v.Arr? {
      assert forall j | 0 <= j < |v.items| :: w.items[j] == Child(w, j) && v.items[j] == Child(v, j);
      assert w.items == v.items;
    } else if v.Obj? {
      assert forall j | 0 <= j < |v.fields| :: w.fields[j].1 == Child(w, j) && v.fields[j].1 == Child(v, j);
      assert w.fields == v.fields;
    }
  }

  /** Keys, key order, list lengths, numbers, booleans and nulls survive redaction. */
  lemma {:induction false} RedactionKeepsShape(env: Env, v: Json, fields: Option<seq<string>>, path: seq<string>,
                                               arguments: bool)
    requires Sound(env) && RedactTree(env, v, fields, path, arguments).Ok?
    ensures Shape(RedactTree(env, v, fields, path, arguments).value) == Shape(v)
    decreases v
  {
    var w := RedactTree(env, v, fields, path, arguments).value;
    if v.Str? {
      RedactedString(env, v.s, fields, path, arguments);
    } else if v.Arr? || v.Obj? {
      assert w.Arr? == v.Arr? && w.Obj? == v.Obj? && Children(w) == Children(v);
      forall j | 0 <= j < Children(v) ensures NameOf(w, j) == NameOf(v, j) && Shape(Child(w, j)) == Shape(Child(v, j)) {
        RedactedMember(env, v, fields, path, arguments, j);
        RedactionKeepsShape(env, Child(v, j), fields, path + [NameOf(v, j)], arguments);
      }
      ShapeFromMembers(v, w);
    }
  }

  lemma {:induction false} ShapeFromMembers(v: Json, w: Json)
    requires v.Arr? || v.Obj?
    requires w.Arr? == v.Arr? && w.Obj? == v.Obj? && Children(w) == Children(v)
    requires forall j | 0 <= j < Children(v) :: NameOf(w, j) == NameOf(v, j)
    requires forall j | 0 <= j < Children(v) :: Shape(Child(w, j)) == Shape(Child(v, j))
    ensures Shape(w) == Shape(v)
  {
    if v.Arr? {
      assert forall j | 0 <= j < |v.items| :: Child(w, j) == w.items[j] && Child(v, j) == v.items[j];
      assert Shape(w).items == Shape(v).items;
    } else {
      assert forall j | 0 <= j < |v.fields| :: Child(w, j) == w.fields[j].1 && Child(v, j) == v.fields[j].1;
      assert forall j | 0 <= j < |v.fields| :: NameOf(w, j) == w.fields[j].0 && NameOf(v, j) == v.fields[j].0;
      assert Shape(w).fields == Shape(v).fields;
    }
  }

  /** A number with a finding anywhere in the tree makes redaction fail. */
  lemma {:induction false} NumbersAreClean(env: Env, v: Json, fields: Option<seq<string>>, path: seq<string>,
                                           arguments: bool, place: Path)
    requires RedactTree(env, v, fields, path, arguments).Ok? && At(v, place).Some?
    ensures var x := At(v, place).value;
            && (x.Int? ==> env.find(IntText(x.n)) == [])
            && (x.Float? ==> env.find(x.text) == [])
            && (x.Obj? ==> forall k | 0 <= k < |x.fields| :: env.find(x.fields[k].0) == [])
    decreases |place|
  {
    if place == [] {
      forall k | 0 <= k < Children(v) && v.Obj? ensures env.find(v.fields[k].0) == [] {
        RedactedMember(env, v, fields, path, arguments, k);
      }
    } else {
      RedactedMember(env, v, fields, path, arguments, place[0]);
      NumbersAreClean(env, Child(v, place[0]), fields, path + [NameOf(v, place[0])], arguments, place[1..]);
    }
  }

  // ---- Unchanged and free of findings ----

  /** What strict_json promises of strings: among values that differ in their strings only, the
      encoding of one is not read as another. */
  ghost predicate ReadsBack(env: Env) {
    forall v: Json, w: Json :: Shape(v) == Shape(w) && env.parse(Encode(w)) == Some(v) ==> v == w
  }

  ghost predicate CleanAt(env: Env, v: Json, place: Path) { IsLeaf(v, place) ==> env.find(At(v, place).value.s) == [] }

  /** No string leaf has a finding. */
  ghost predicate Clean(env: Env, v: Json) { forall place: Path :: CleanAt(env, v, place) }

  ghost predicate UnmarkedAt(v: Json, place: Path) { IsLeaf(v, place) ==> !SpellsMarker(At(v, place).value.s) }

  /** No string leaf spells the mask. */
  ghost predicate Unmarked(v: Json) { forall place: Path :: UnmarkedAt(v, place) }

  lemma {:induction false} CleanChild(env: Env, v: Json, i: nat)
    requires Clean(env, v) && i < Children(v)
    ensures Clean(env, Child(v, i))
  {
    forall place: Path ensures CleanAt(env, Child(v, i), place) {
      assert CleanAt(env, v, [i] + place);
      assert ([i] + place)[1..] == place;
    }
  }

  /** A tree without findings in its strings is returned as it is. */
  lemma {:induction false} CleanIsUnchanged(env: Env, v: Json, fields: Option<seq<string>>, path: seq<string>)
    requires Clean(env, v) && RedactTree(env, v, fields, path, false).Ok?
    ensures RedactTree(env, v, fields, path, false).value == v
    decreases v
  {
    if v.Str? {
      assert CleanAt(env, v, []);
    } else {
      var w := RedactTree(env, v, fields, path, false).value;
      forall j | 0 <= j < Children(v) && Children(w) == Children(v) ensures Child(w, j) == Child(v, j) {
        CleanChild(env, v, j);
        RedactedMember(env, v, fields, path, false, j);
        CleanIsUnchanged(env, Child(v, j), fields, path + [NameOf(v, j)]);
      }
      SameMembers(env, v, fields, path, false);
    }
  }

  /** A tree none of whose strings spells the mask comes back unchanged if and only if none of its
      strings has a finding. */
  lemma {:induction false} UnchangedTreeIffClean(env: Env, v: Json, fields: Option<seq<string>>, path: seq<string>)
    requires Sound(env) && Unmarked(v) && RedactTree(env, v, fields, path, false).Ok?
    ensures RedactTree(env, v, fields, path, false).value == v <==> Clean(env, v)
  {
    if RedactTree(env, v, fields, path, false).value == v {
      forall place: Path ensures CleanAt(env, v, place) {
        if IsLeaf(v, place) {
          var s := At(v, place).value.s;
          assert UnmarkedAt(v, place);
          RedactedLeaf(env, v, fields, path, false, place);
          MaskMeaning(s, env.find(s));
          UnchangedIffNoFindings(s, env.find(s));
        }
      }
    } else if Clean(env, v) {
      CleanIsUnchanged(env, v, fields, path);
    }
  }

  /** Must this leaf be read as JSON inside a string? */
  predicate IsArgumentsAt(v: Json, path: seq<string>, arguments: bool, place: Path)
    requires At(v, place).Some?
  {
    IsArguments(path + NamesAt(v, place), arguments)
  }

  /** Where a string that is left alone was free of findings: its own text, or for a tool's
      arguments the strings of the decoded JSON.  Neither may spell the mask. */
  lemma {:induction false} UnchangedLeafIffClean(env: Env, v: Json, fields: Option<seq<string>>, path: seq<string>,
                                                 arguments: bool, place: Path)
    requires Sound(env) && RedactTree(env, v, fields, path, arguments).Ok? && IsLeaf(v, place)
    requires var s := At(v, place).value.s;
             if IsArgumentsAt(v, path, arguments, place)
             then ReadsBack(env) && (env.parse(s).Some? ==> Unmarked(env.parse(s).value))
             else !SpellsMarker(s)
    ensures var w, s := RedactTree(env, v, fields, path, arguments).value, At(v, place).value.s;
            At(w, place) == Some(Str(s)) <==>
              if IsArgumentsAt(v, path, arguments, place)
              then env.parse(s).Some? && Clean(env, env.parse(s).value) else env.find(s) == []
  {
    hide RedactTree, Mask, SpellsMarker, Clean, Unmarked, At, NamesAt;
    var s := At(v, place).value.s;
    RedactedLeaf(env, v, fields, path, arguments, place);
    if IsArgumentsAt(v, path, arguments, place) {
      UnchangedTreeIffClean(env, env.parse(s).value, None, []);
      RedactionKeepsShape(env, env.parse(s).value, None, [], false);
    } else {
      MaskMeaning(s, env.find(s));
      UnchangedIffNoFindings(s, env.find(s));
    }
  }
}
