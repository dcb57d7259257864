/** Which paths a list of field patterns allows: JSON pointers (RFC 6901) with a wildcard. */
module FieldPointer {
  import opened Sequences
  import opened Wrappers
  import opened RedactJson

  /** A name as a JSON pointer spells it (RFC 6901, section 3). */
  function Spelled(name: string): string {
    if name == "" then ""
    else (if name[0] == '~' then "~0" else if name[0] == '/' then "~1" else [name[0]]) + Spelled(name[1..])
  }

  function Pointer(names: seq<string>): string {
    if names == [] then "" else "/" + Spelled(names[0]) + Pointer(names[1..])
  }

  function Pointers(rules: seq<seq<string>>): seq<string> {
    seq(|rules|, k requires 0 <= k < |rules| => Pointer(rules[k]))
  }

  function AllSpelled(names: seq<string>): seq<string> {
    seq(|names|, i requires 0 <= i < |names| => Spelled(names[i]))
  }

  // ---- Reading one name ----

  /** The name with its tildes still spelled. */
  function HalfSpelled(name: string): string {
    if name == "" then "" else (if name[0] == '~' then "~0" else [name[0]]) + HalfSpelled(name[1..])
  }

  lemma {:induction false} ReplaceHead(c: char, rest: string, a: char, b: char, r: char)
    requires c != a
    ensures Replace([c] + rest, a, b, r) == [c] + Replace(rest, a, b, r)
  {
    if rest != "" { assert ([c] + rest)[1..] == rest; }
  }

  lemma {:induction false} ReplacePair(rest: string, a: char, b: char, r: char)
    ensures Replace([a, b] + rest, a, b, r) == [r] + Replace(rest, a, b, r)
  {
    assert ([a, b] + rest)[2..] == rest;
  }

  lemma {:induction false} ReplaceOther(rest: string, a: char, b: char, other: char, r: char)
    requires other != b && other != a
    ensures Replace([a, other] + rest, a, b, r) == [a, other] + Replace(rest, a, b, r)
  {
    assert ([a, other] + rest)[1..] == [other] + rest;
    ReplaceHead(other, rest, a, b, r);
    Associate([a], [other], Replace(rest, a, b, r));
    assert [a] + [other] == [a, other];
  }

  lemma {:induction false} SlashesBack(name: string)
    ensures Replace(Spelled(name), '~', '1', '/') == HalfSpelled(name)
  {
    if name != "" {
      hide Replace;
      var rest := Spelled(name[1..]);
      SlashesBack(name[1..]);
      if name[0] == '~' {
        assert "~0" == ['~', '0'];
        ReplaceOther(rest, '~', '1', '0', '/');
      } else if name[0] == '/' {
        assert "~1" == ['~', '1'];
        ReplacePair(rest, '~', '1', '/');
      } else {
        ReplaceHead(name[0], rest, '~', '1', '/');
      }
    }
  }

  lemma {:induction false} TildesBack(name: string)
    ensures Replace(HalfSpelled(name), '~', '0', '~') == name
  {
    if name != "" {
      hide Replace;
      var rest := HalfSpelled(name[1..]);
      TildesBack(name[1..]);
      SplitFirst(name);
      if name[0] == '~' {
        assert "~0" == ['~', '0'];
        ReplacePair(rest, '~', '0', '~');
      } else {
        ReplaceHead(name[0], rest, '~', '0', '~');
      }
    }
  }

  // ---- Reading a whole pointer ----

  lemma {:induction false} SpelledHasNoSlash(name: string)
    ensures '/' !in Spelled(name)
  {
    if name != "" { SpelledHasNoSlash(name[1..]); }
  }

  lemma {:induction false} FindAfter(x: string, rest: string, c: char)
    requires c !in x
    ensures Find(x + [c] + rest, c) == |x| && Find(x, c) == |x|
  {
    if x != "" {
      assert x[0] in x;
      assert (x + [c] + rest)[1..] == x[1..] + [c] + rest;
      FindAfter(x[1..], rest, c);
    } else {
      assert x + [c] + rest == [c] + rest;
    }
  }

  lemma {:induction false} SplitAfter(x: string, rest: string)
    requires '/' !in x
    ensures SplitSlash(x + ['/'] + rest) == [x] + SplitSlash(rest)
  {
    hide Find;
    var s := x + ['/'] + rest;
    FindAfter(x, rest, '/');
    assert s[..|x|] == x && s[|x| + 1..] == rest;
  }

  lemma {:induction false} SplitNothing(x: string)
    requires '/' !in x
    ensures SplitSlash(x) == [x]
  {
    hide Find;
    FindAfter(x, "", '/');
  }

  lemma {:induction false} SplitPointer(x: string, names: seq<string>)
    requires '/' !in x
    ensures SplitSlash(x + Pointer(names)) == [x] + AllSpelled(names)
    decreases |names|
  {
    hide SplitSlash, Spelled;
    if names == [] {
      ConcatNothing(x);
      SplitNothing(x);
      assert AllSpelled(names) == [];
    } else {
      var rest := Spelled(names[0]) + Pointer(names[1..]);
      Associate(['/'], Spelled(names[0]), Pointer(names[1..]));
      Associate(x, ['/'], rest);
      assert "/" == ['/'];
      SplitAfter(x, rest);
      SpelledHasNoSlash(names[0]);
      SplitPointer(Spelled(names[0]), names[1..]);
      assert AllSpelled(names) == [Spelled(names[0])] + AllSpelled(names[1..]);
    }
  }

  /** Reading a pointer gives back its names, whatever characters they hold. */
  lemma {:induction false} PointerReadsBack(names: seq<string>)
    ensures PatternParts(Pointer(names)) == names
  {
    hide Replace, SplitSlash;
    SplitPointer("", names);
    NothingConcat(Pointer(names));
    assert ([""] + AllSpelled(names))[1..] == AllSpelled(names);
    forall i | 0 <= i < |names|
      ensures Replace(Replace(Spelled(names[i]), '~', '1', '/'), '~', '0', '~') == names[i]
    {
      SlashesBack(names[i]);
      TildesBack(names[i]);
    }
  }

  /** A path is allowed if and only if some pattern has as many names and each is the path's or "*". */
  lemma {:induction false} FieldAllowedIff(path: seq<string>, rules: seq<seq<string>>)
    ensures FieldAllowed(path, Pointers(rules)) <==>
            exists k | 0 <= k < |rules| ::
              |rules[k]| == |path| && forall i | 0 <= i < |path| :: rules[k][i] == "*" || rules[k][i] == path[i]
  {
    hide PatternParts;
    forall k | 0 <= k < |rules| ensures PatternParts(Pointers(rules)[k]) == rules[k] { PointerReadsBack(rules[k]); }
    if FieldAllowed(path, Pointers(rules)) {
      var k :| 0 <= k < |rules| && Matches(path, PatternParts(Pointers(rules)[k]));
      assert PatternParts(Pointers(rules)[k]) == rules[k];
    }
    forall k | 0 <= k < |rules| && |rules[k]| == |path|
               && (forall i | 0 <= i < |path| :: rules[k][i] == "*" || rules[k][i] == path[i])
      ensures FieldAllowed(path, Pointers(rules))
    {
      assert Matches(path, PatternParts(Pointers(rules)[k]));
    }
  }
}
