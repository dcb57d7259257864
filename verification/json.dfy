/** JSON values as the engine holds them after strict_json: objects keep their key order and
    have no repeated keys. The encoder is json.dumps(ensure_ascii=False, separators=(',', ':')). */
module Json {
  import opened Wrappers

  type FloatText = s: string | s != "" && forall c | c in s :: c in "0123456789+-.eE" witness "0"

  datatype Json =
    | Null
    | Bool(b: bool)
    | Int(n: int)
    | Float(text: FloatText)
    | Str(s: string)
    | Arr(items: seq<Json>)
    | Obj(fields: seq<(string, Json)>)

  // ---- Reading objects ----

  /** value.get(key) */
  function Get(fields: seq<(string, Json)>, key: string): Option<Json> {
    if fields == [] then None
    else if fields[0].0 == key then Some(fields[0].1)
    else Get(fields[1..], key)
  }

  function Lookup(v: Json, key: string): Option<Json> {
    if v.Obj? then Get(v.fields, key) else None
  }

  predicate Has(v: Json, key: string) { Lookup(v, key).Some? }

  /** value.get(key) == s for a string constant s. */
  predicate IsText(v: Option<Json>, s: string) { v == Some(Str(s)) }

  // ---- Encoding ----

  function Digit(n: nat): char
    requires n < 10
  {
    "0123456789"[n]
  }

  function Decimal(n: nat): string {
    if n < 10 then [Digit(n)] else Decimal(n / 10) + [Digit(n % 10)]
  }

  function IntText(n: int): string { if n < 0 then "-" + Decimal(-n) else Decimal(n) }

  function Hex(n: nat): char
    requires n < 16
  {
    "0123456789abcdef"[n]
  }

  function EscapeChar(c: char): string {
    if c == '\"' then "\\\""
    else if c == '\\' then "\\\\"
    else if c == '\n' then "\\n"
    else if c == '\r' then "\\r"
    else if c == '\t' then "\\t"
    else if c as int == 8 then "\\b"
    else if c as int == 12 then "\\f"
    else if c as int < 32 then "\\u00" + [Hex(c as int / 16), Hex(c as int % 16)]
    else [c]
  }

  function Escape(s: string): string {
    if s == "" then "" else EscapeChar(s[0]) + Escape(s[1..])
  }

  function Encode(v: Json): string
    decreases v, 1, 0
  {
    match v
    case Null => "null"
    case Bool(b) => if b then "true" else "false"
    case Int(n) => IntText(n)
    case Float(text) => text
    case Str(s) => "\"" + Escape(s) + "\""
    case Arr(_) => "[" + EncodeFrom(v, 0) + "]"
    case Obj(_) => "{" + EncodeFrom(v, 0) + "}"
  }

  /** The members of an array or object from position i on. */
  function EncodeFrom(v: Json, i: nat): string
    requires i <= Children(v)
    decreases v, 0, Children(v) - i
  {
    if i == Children(v) then ""
    else
      var key := if v.Obj? then "\"" + Escape(v.fields[i].0) + "\":" else "";
      key + Encode(Child(v, i)) + (if i + 1 < Children(v) then "," else "") + EncodeFrom(v, i + 1)
  }

  /** No control characters: in particular no raw line break. */
  predicate Plain(s: string) { forall c | c in s :: c as int >= 32 }

  lemma {:induction false} PlainConcat(a: string, b: string)
    requires Plain(a) && Plain(b)
    ensures Plain(a + b)
  {}

  lemma {:induction false} EscapeIsPlain(s: string)
    ensures Plain(Escape(s))
  {
    if s != "" {
      EscapeIsPlain(s[1..]);
      PlainConcat(EscapeChar(s[0]), Escape(s[1..]));
    }
  }

  lemma {:induction false} DecimalIsPlain(n: nat)
    ensures Plain(Decimal(n))
  {
    if n >= 10 { DecimalIsPlain(n / 10); }
  }

  lemma {:induction false} EncodeIsPlain(v: Json)
    ensures Plain(Encode(v))
    decreases v, 1, 0
  {
    hide Escape, EncodeFrom, IntText;
    match v
    case Null =>
    case Bool(b) =>
    case Int(n) => IntIsPlain(n);
    case Float(text) =>
    case Str(s) => EscapeIsPlain(s); WrappedIsPlain("\"", Escape(s), "\"");
    case Arr(_) => MembersArePlain(v, 0); WrappedIsPlain("[", EncodeFrom(v, 0), "]");
    case Obj(_) => MembersArePlain(v, 0); WrappedIsPlain("{", EncodeFrom(v, 0), "}");
  }

  lemma {:induction false} WrappedIsPlain(open: string, s: string, close: string)
    requires Plain(open) && Plain(s) && Plain(close)
    ensures Plain(open + s + close)
  {}

  lemma {:induction false} IntIsPlain(n: int)
    ensures Plain(IntText(n))
  {
    DecimalIsPlain(if n < 0 then -n else n);
  }

  lemma {:induction false} MembersArePlain(v: Json, i: nat)
    requires i <= Children(v)
    ensures Plain(EncodeFrom(v, i))
    decreases v, 0, Children(v) - i
  {
    hide Escape, Encode;
    if i < Children(v) {
      if v.Obj? { EscapeIsPlain(v.fields[i].0); }
      EncodeIsPlain(Child(v, i));
      MembersArePlain(v, i + 1);
    }
  }

  // ---- Places in a tree ----

  /** A place: the child position at each level. An object's keys are distinct, so parent[key]
      is the child at the key's position. */
  type Path = seq<nat>

  function Children(v: Json): nat {
    if v.Arr? then |v.items| else if v.Obj? then |v.fields| else 0
  }

  function Child(v: Json, i: nat): (c: Json)
    requires i < Children(v)
    ensures c < v
  {
    if v.Arr? then v.items[i] else v.fields[i].1
  }

  function At(v: Json, path: Path): Option<Json> {
    if path == [] then Some(v)
    else if path[0] < Children(v) then At(Child(v, path[0]), path[1..])
    else None
  }

  function WithChild(v: Json, i: nat, c: Json): Json
    requires i < Children(v)
  {
    if v.Arr? then Arr(v.items[i := c]) else Obj(v.fields[i := (v.fields[i].0, c)])
  }

  /** parent[key] = text */
  function Put(v: Json, path: Path, text: string): Json {
    if path == [] then Str(text)
    else if path[0] < Children(v) then WithChild(v, path[0], Put(Child(v, path[0]), path[1..], text))
    else v
  }

  /** The tree with every string leaf blanked: keys, order, lengths, numbers, booleans, nulls. */
  function Shape(v: Json): Json {
    match v
    case Str(_) => Str("")
    case Arr(items) => Arr(seq(|items|, i requires 0 <= i < |items| => Shape(items[i])))
    case Obj(fields) => Obj(seq(|fields|, i requires 0 <= i < |fields| => (fields[i].0, Shape(fields[i].1))))
    case _ => v
  }

  predicate IsLeaf(v: Json, path: Path) { At(v, path).Some? && At(v, path).value.Str? }

  lemma {:induction false} PutAtSelf(v: Json, path: Path, text: string)
    requires At(v, path).Some?
    ensures At(Put(v, path, text), path) == Some(Str(text))
  {
    if path != [] { PutAtSelf(Child(v, path[0]), path[1..], text); }
  }

  /** Writing one leaf leaves every other leaf alone. */
  lemma {:induction false} PutElsewhere(v: Json, path: Path, text: string, other: Path)
    requires IsLeaf(v, path) && other != path
    ensures IsLeaf(v, other) ==> At(Put(v, path, text), other) == At(v, other)
    ensures IsLeaf(Put(v, path, text), other) ==> IsLeaf(v, other)
  {
    if path != [] && other != [] && path[0] < Children(v) {
      if path[0] == other[0] {
        assert path == [path[0]] + path[1..] && other == [other[0]] + other[1..];
        PutElsewhere(Child(v, path[0]), path[1..], text, other[1..]);
      } else if other[0] < Children(v) {
        assert Child(Put(v, path, text), other[0]) == Child(v, other[0]);
      }
    }
  }

  lemma {:induction false} PutKeepsShape(v: Json, path: Path, text: string)
    requires IsLeaf(v, path)
    ensures Shape(Put(v, path, text)) == Shape(v)
  {
    if path != [] {
      var i := path[0];
      PutKeepsShape(Child(v, i), path[1..], text);
      if v.Arr? {
        assert Shape(Put(v, path, text)).items == Shape(v).items;
      } else {
        assert Shape(Put(v, path, text)).fields == Shape(v).fields;
      }
    }
  }

  // ---- The string leaves, in the order collect visits them ----

  datatype Leaf = Leaf(path: Path, text: string)

  function Leaves(v: Json, path: Path): seq<Leaf>
    decreases v, 1, 0
  {
    if v.Str? then [Leaf(path, v.s)] else LeavesFrom(v, path, 0)
  }

  function LeavesFrom(v: Json, path: Path, i: nat): seq<Leaf>
    requires i <= Children(v)
    decreases v, 0, Children(v) - i
  {
    if i == Children(v) then []
    else Leaves(Child(v, i), path + [i]) + LeavesFrom(v, path, i + 1)
  }

  predicate Under(path: Path, base: Path) { |base| <= |path| && path[..|base|] == base }

  /** Leaves lists exactly the string leaves... */
  lemma {:induction false} LeavesAreLeaves(v: Json, base: Path)
    ensures forall l | l in Leaves(v, base) :: Under(l.path, base) && At(v, l.path[|base|..]) == Some(Str(l.text))
    decreases v, 1, 0
  {
    if v.Str? {
      assert base[|base|..] == [];
    } else {
      LeavesFromAreLeaves(v, base, 0);
    }
  }

  lemma {:induction false} LeavesFromAreLeaves(v: Json, base: Path, i: nat)
    requires i <= Children(v)
    ensures forall l | l in LeavesFrom(v, base, i) ::
      && |base| < |l.path| && Under(l.path, base) && i <= l.path[|base|] < Children(v)
      && At(v, l.path[|base|..]) == Some(Str(l.text))
    decreases v, 0, Children(v) - i
  {
    if i < Children(v) {
      LeavesAreLeaves(Child(v, i), base + [i]);
      LeavesFromAreLeaves(v, base, i + 1);
      forall l | l in Leaves(Child(v, i), base + [i])
        ensures |base| < |l.path| && Under(l.path, base) && l.path[|base|] == i
        ensures At(v, l.path[|base|..]) == Some(Str(l.text))
      {
        StepInto(l.path, base, i);
      }
    }
  }

  lemma {:induction false} StepInto(path: Path, base: Path, i: nat)
    requires Under(path, base + [i])
    ensures |base| < |path| && Under(path, base) && path[|base|] == i
    ensures path[|base|..] == [i] + path[|base| + 1..]
  {
    assert path[..|base|] == path[..|base| + 1][..|base|] == base;
    assert path[|base|] == path[..|base| + 1][|base|];
  }

  /** ...all of them... */
  lemma {:induction false} LeavesAreComplete(v: Json, base: Path, path: Path)
    requires IsLeaf(v, path)
    ensures Leaf(base + path, At(v, path).value.s) in Leaves(v, base)
    decreases v, 1, 0
  {
    if path == [] {
      assert base + path == base;
    } else {
      LeavesFromAreComplete(v, base, 0, path);
    }
  }

  lemma {:induction false} LeavesFromAreComplete(v: Json, base: Path, i: nat, path: Path)
    requires path != [] && i <= path[0] < Children(v) && IsLeaf(v, path)
    ensures Leaf(base + path, At(v, path).value.s) in LeavesFrom(v, base, i)
    decreases v, 0, Children(v) - i
  {
    if i == path[0] {
      LeavesAreComplete(Child(v, i), base + [i], path[1..]);
      assert base + path == base + [i] + path[1..];
    } else {
      LeavesFromAreComplete(v, base, i + 1, path);
    }
  }

  ghost predicate DistinctPlaces(ls: seq<Leaf>) { forall i, j | 0 <= i < j < |ls| :: ls[i].path != ls[j].path }

  /** ...and each once. */
  lemma {:induction false} LeavesAreDistinct(v: Json, base: Path)
    ensures DistinctPlaces(Leaves(v, base))
    decreases v, 1, 0
  {
    if !v.Str? { LeavesFromAreDistinct(v, base, 0); }
  }

  lemma {:induction false} LeavesFromAreDistinct(v: Json, base: Path, i: nat)
    requires i <= Children(v)
    ensures DistinctPlaces(LeavesFrom(v, base, i))
    decreases v, 0, Children(v) - i
  {
    if i < Children(v) {
      var here, rest := Leaves(Child(v, i), base + [i]), LeavesFrom(v, base, i + 1);
      LeavesAreDistinct(Child(v, i), base + [i]);
      LeavesFromAreDistinct(v, base, i + 1);
      LeavesAreLeaves(Child(v, i), base + [i]);
      LeavesFromAreLeaves(v, base, i + 1);
      forall a, b | a in here && b in rest ensures a.path != b.path { StepInto(a.path, base, i); }
    }
  }
}
