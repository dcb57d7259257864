/** What an accepted stream is free of: the lines beside the data, and all that is not a string. */
module SseClean {
  import opened Sequences
  import opened Wrappers
  import opened Json
  import opened RedactJson
  import opened SseLanes
  import opened SseRewrite
  import opened StreamAutomata
  import opened StreamWellFormed
  import opened SsePipeline
  import opened SseClient
  import opened SseTextLaw
  import Sse

  // ---- Lines that are not data ----

  predicate LineOk(env: Env, line: string) {
    && !env.screen(Str(line)) && env.find(line) == []
    && Sse.FieldName(line) in ["", "event", "id", "retry"]
    && (Sse.FieldName(line) == "retry" ==>
          Sse.Contents(line) != "" && forall c | c in Sse.Contents(line) :: c in "0123456789")
  }

  predicate IsMeta(line: string) { Sse.FieldName(line) != "data" }

  /** No field but the comment is given twice. */
  predicate FieldsOnce(lines: seq<string>) {
    forall i, j | 0 <= i < j < |lines| && IsMeta(lines[i]) && IsMeta(lines[j]) ::
      Sse.FieldName(lines[i]) == Sse.FieldName(lines[j]) ==> Sse.FieldName(lines[i]) == ""
  }

  predicate LinesOk(env: Env, lines: seq<string>) {
    forall i | 0 <= i < |lines| && IsMeta(lines[i]) :: LineOk(env, lines[i])
  }

  predicate Given(lines: seq<string>, field: string) {
    field != "" && exists i | 0 <= i < |lines| :: IsMeta(lines[i]) && Sse.FieldName(lines[i]) == field
  }

  lemma {:induction false} DigitsAre(s: string)
    ensures (forall c | c in s :: '0' <= c <= '9') <==> forall c | c in s :: c in "0123456789"
  {
    var digits := "0123456789";
    forall c | c in s ensures '0' <= c <= '9' <==> c in digits {
      if '0' <= c <= '9' { assert digits[c as int - '0' as int] == c; }
    }
  }

  lemma {:induction false} ReadLineIff(env: Env, fields: map<string, string>, line: string)
    requires IsMeta(line)
    ensures var field := Sse.FieldName(line);
            && (ReadLine(env, fields, line).Ok? <==> LineOk(env, line) && field !in (fields.Keys - {""}))
            && (ReadLine(env, fields, line).Ok? ==>
                  ReadLine(env, fields, line).value ==
                  if field == "" then fields else fields[field := Sse.Contents(line)])
  {
    hide Sse.FieldName, Sse.Contents;
    DigitsAre(Sse.Contents(line));
  }

  lemma {:induction false} LinesMore(env: Env, lines: seq<string>, line: string)
    ensures LinesOk(env, lines + [line]) <==> LinesOk(env, lines) && (IsMeta(line) ==> LineOk(env, line))
    ensures FieldsOnce(lines + [line]) <==> FieldsOnce(lines) && (IsMeta(line) ==> !Given(lines, Sse.FieldName(line)))
    ensures forall field ::
              Given(lines + [line], field) <==>
              Given(lines, field) || (field != "" && IsMeta(line) && field == Sse.FieldName(line))
  {
    hide LineOk, IsMeta, Sse.FieldName;
    var all, n := lines + [line], |lines|;
    assert forall i | 0 <= i < n :: all[i] == lines[i];
    assert all[n] == line;
  }

  /** An event's other lines are accepted if and only if each is free of findings, has a known field,
      and no field but the comment comes twice; what is read are the fields given. */
  lemma {:induction false} MetadataIff(env: Env, lines: seq<string>)
    ensures Metadata(env, lines).Ok? <==> LinesOk(env, lines) && FieldsOnce(lines)
    ensures Metadata(env, lines).Ok? ==> forall field :: field in Metadata(env, lines).value <==> Given(lines, field)
  {
    hide LinesOk, FieldsOnce, Given, LineOk, ReadLine, Sse.FieldName, Sse.Contents;
    if lines == [] {
      NoLines(env);
    } else {
      var n := |lines| - 1;
      SplitLast(lines);
      LinesMore(env, lines[..n], lines[n]);
      MetadataIff(env, lines[..n]);
      MetaIff(lines[n]);
      if Metadata(env, lines[..n]).Ok? && IsMeta(lines[n]) {
        NothingGiven(lines[..n]);
        ReadLineIff(env, Metadata(env, lines[..n]).value, lines[n]);
      }
    }
  }

  lemma {:induction false} MetaIff(line: string)
    ensures IsMeta(line) <==> !Sse.IsData(line)
  {}

  lemma {:induction false} NothingGiven(lines: seq<string>)
    ensures !Given(lines, "")
  {}

  lemma {:induction false} NoLines(env: Env)
    ensures LinesOk(env, []) && FieldsOnce([]) && forall field :: !Given([], field)
  {}

  // ---- Keys, numbers and encoded payloads ----

  /** The only numbers that may look like personal data: a provider's time of creation. */
  predicate MayBeTime(n: int, provider: Option<string>, names: seq<string>) {
    && provider in [Some("openai"), Some("openrouter"), Some("google")] && 946684800 <= n <= 4102444800
    && names in [["created"], ["created_at"], ["response", "created_at"]]
  }

  predicate KeyIsClean(env: Env, key: string, x: Json) {
    && env.find(key) == [] && (key == "logprobs" ==> x == Null)
    && key !in ["encrypted_content", "inlineData", "fileData", "thoughtSignature", "partialArgs"]
  }

  predicate IsClean(env: Env, provider: Option<string>, v: Json, names: seq<string>) {
    match v
    case Int(n) => env.find(IntText(n)) == [] || MayBeTime(n, provider, names)
    case Float(text) => env.find(text) == []
    case Obj(fields) =>
      && (forall i | 0 <= i < |fields| :: KeyIsClean(env, fields[i].0, fields[i].1))
      && Lookup(v, "type") !in [Some(Str("image")), Some(Str("audio")), Some(Str("redacted_thinking"))]
    case _ => true
  }

  lemma {:induction false} NamedFromHere(env: Env, c: Context, v: Json, place: Path, path: seq<string>, i: nat,
                                         seen: set<string>, j: nat) returns (before: set<string>)
    requires i <= j < Children(v) && CollectFrom(env, c, v, place, path, i, seen).Ok?
    ensures MemberName(env, v, j, Numbered(c.family, path), before).Ok?
    ensures var name := MemberName(env, v, j, Numbered(c.family, path), before).value.0;
            Collect(env, c, Child(v, j), place + [j], path + [name]).Ok?
    decreases j - i
  {
    hide Collect, MemberName, Numbered;
    before := seen;
    if i < j {
      var (name, seen') := MemberName(env, v, i, Numbered(c.family, path), seen).value;
      before := NamedFromHere(env, c, v, place, path, i + 1, seen', j);
    }
  }

  lemma {:induction false} TimesAreFew(n: int, event: Json, path: seq<string>, provider: Option<string>)
    ensures IsTimestamp(n, event, path, provider) ==> MayBeTime(n, provider, path)
  {
    hide Lookup;
  }

  /** The value itself... */
  lemma {:induction false} CollectedIsClean(env: Env, c: Context, v: Json, place: Path, path: seq<string>)
    requires (path == [] ==> v.Obj?) && Collect(env, c, v, place, path).Ok?
    ensures IsClean(env, c.provider, v, path)
  {
    hide IsTimestamp, MayBeTime, Numbered, Lookup;
    match v
    case Int(n) => TimesAreFew(n, c.event, path, c.provider);
    case Obj(fields) =>
      forall j | 0 <= j < |fields| ensures KeyIsClean(env, fields[j].0, fields[j].1) {
        hide KeyIsClean, Collect;
        var before := NamedFromHere(env, c, v, place, path, 0, {}, j);
        CollectedKey(env, c, v, path, j, before);
      }
    case _ =>
  }

  lemma {:induction false} CollectedKey(env: Env, c: Context, v: Json, path: seq<string>, j: nat, before: set<string>)
    requires v.Obj? && j < |v.fields| && MemberName(env, v, j, Numbered(c.family, path), before).Ok?
    requires !IsEncodedPayload(v)
    ensures KeyIsClean(env, v.fields[j].0, v.fields[j].1)
  {
    hide Lookup, Numbered;
  }

  /** ...and everything in it. */
  lemma {:induction false} EverythingIsClean(env: Env, c: Context, family: Family, v: Json, place: Path,
                                             path: seq<string>, inner: Path)
    requires c.family == Some(family) && (path == [] ==> v.Obj?) && Collect(env, c, v, place, path).Ok?
    requires At(v, inner).Some?
    ensures IsClean(env, c.provider, At(v, inner).value, path + NamesOf(family, v, inner, LastOr(path, "")))
    decreases v
  {
    hide IsClean, CollectFrom, MemberName, Numbered, LastOr;
    if inner == [] {
      CollectedIsClean(env, c, v, place, path);
      ConcatNothing(path);
    } else {
      var j := inner[0];
      var before := NamedFromHere(env, c, v, place, path, 0, {}, j);
      MemberIsCalled(env, family, v, j, path, before);
      var name := Called(family, v, j, LastOr(path, ""));
      EverythingIsClean(env, c, family, Child(v, j), place + [j], path + [name], inner[1..]);
      LastIsName(path, name);
      Associate(path, [name], NamesOf(family, Child(v, j), inner[1..], name));
    }
  }

  lemma {:induction false} LastIsName(path: seq<string>, name: string)
    ensures LastOr(path + [name], "") == name
  {}

  // ---- Every tree of an accepted stream was collected ----

  predicate IsCollected(env: Env, provider: Option<string>, family: Option<Family>, trees: Trees, t: nat)
    requires t < |trees|
  {
    trees[t].Some? ==>
      trees[t].value.Obj? && Collect(env, Context(family, trees[t].value, t, provider), trees[t].value, [], []).Ok?
  }

  ghost predicate AllCollected(env: Env, provider: Option<string>, g: Gathered) {
    forall t | 0 <= t < |g.trees| ::
      (g.state.family.None? ==> g.trees[t].None?) && IsCollected(env, provider, g.state.family, g.trees, t)
  }

  lemma {:induction false} AbsorbCollects(env: Env, provider: Option<string>, g: Gathered, lines: seq<string>)
    requires AllCollected(env, provider, g) && Absorb(env, provider, g, lines).Ok?
    ensures AllCollected(env, provider, Absorb(env, provider, g, lines).value)
  {
    hide Collect, Metadata, Advance, Defaulted, FamilyOf;
    var next := Absorb(env, provider, g, lines).value;
    forall t | 0 <= t < |next.trees|
      ensures (next.state.family.None? ==> next.trees[t].None?) &&
              IsCollected(env, provider, next.state.family, next.trees, t)
    {
      if t < |g.trees| { assert next.trees[t] == g.trees[t]; }
    }
  }

  lemma {:induction false} GatherCollects(env: Env, provider: Option<string>, events: seq<seq<string>>)
    requires Gather(env, provider, events).Ok?
    ensures AllCollected(env, provider, Gather(env, provider, events).value)
  {
    hide Absorb, IsCollected;
    if events != [] {
      var n := |events| - 1;
      GatherCollects(env, provider, events[..n]);
      AbsorbCollects(env, provider, Gather(env, provider, events[..n]).value, events[n]);
    }
  }

  /** An accepted stream has no finding outside its strings: no key and no number has one, a
      provider's times of creation apart, and no event carries an encoded payload or token bytes. */
  lemma {:induction false} AcceptedIsClean(env: Env, provider: Option<string>, events: seq<seq<string>>, family: Family,
                                           t: nat, place: Path)
    requires RedactEvents(env, provider, events).Ok? && BeginsAs(ItemsOf(env, events), family)
    requires t < |events| && TreeOf(env, events[t]).Some? && At(TreeOf(env, events[t]).value, place).Some?
    ensures var tree := TreeOf(env, events[t]).value;
            IsClean(env, provider, At(tree, place).value, NamesOf(family, tree, place, ""))
  {
    hide Partition, Collect, IsClean, Accepted;
    AcceptedStream(env, provider, events);
    GatherCollects(env, provider, events);
    GatherPartitions(env, provider, events);
    FamilyIsFirst(ItemsOf(env, events));
    var g := RedactEvents(env, provider, events).value.g;
    var tree := TreeOf(env, events[t]).value;
    assert g.trees[t] == Some(tree) && IsCollected(env, provider, g.state.family, g.trees, t);
    EverythingIsClean(env, Context(Some(family), tree, t, provider), family, tree, [], [], place);
    NothingConcat(NamesOf(family, tree, place, ""));
  }

  // ---- Line ends ----

  lemma {:induction false} NoReturns(s: string)
    ensures '\r' !in UnixLines(s)
    decreases |s|
  {
    if s != "" {
      NoReturns(s[1..]);
      if |s| > 1 { NoReturns(s[2..]); }
    }
  }

  /** Up to its first carriage return a text is as it was; the return becomes a line feed, together
      with a line feed that follows it. */
  lemma {:induction false} LineEnds(a: string, b: string)
    requires '\r' !in a
    ensures UnixLines(a) == a
    ensures UnixLines(a + "\r\n" + b) == a + "\n" + UnixLines(b)
    ensures b == "" || b[0] != '\n' ==> UnixLines(a + "\r" + b) == a + "\n" + UnixLines(b)
    decreases |a|
  {
    if a == "" {
      assert (a + "\r\n" + b)[2..] == b && (a + "\r" + b)[1..] == b;
    } else {
      assert a[0] in a;
      LineEnds(a[1..], b);
      SplitFirst(a);
      assert (a + "\r\n" + b)[1..] == a[1..] + "\r\n" + b && (a + "\r" + b)[1..] == a[1..] + "\r" + b;
      assert [a[0]] + (a[1..] + "\n" + UnixLines(b)) == a + "\n" + UnixLines(b);
    }
  }
}
