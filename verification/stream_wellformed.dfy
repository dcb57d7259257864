/** Accepted streams are well formed, and well-formed streams are accepted: each protocol's
    automaton decides exactly a property of the whole trace. */
module StreamWellFormed {
  import opened Wrappers
  import opened Json
  import opened SseLanes
  import opened StreamAutomata

  // ---- Anthropic ----

  /** A trace that can still be continued: one message_start before everything but pings, each
      block opened at most once, deltas and stops only between a block's start and stop, nothing
      after message_stop, which finds no block open. */
  ghost predicate Plausible(ts: seq<Token>) {
    && (forall p | 0 <= p < |ts| - 1 :: !ts[p].MessageStop?)
    && (forall p | 0 <= p < |ts| && !ts[p].MessageStart? && !ts[p].Ping? :: MessageStart in ts[..p])
    && (forall p | 0 <= p < |ts| && ts[p].MessageStart? :: MessageStart !in ts[..p])
    && (forall p | 0 <= p < |ts| && ts[p].BlockStart? :: ts[p] !in ts[..p])
    && (forall p | 0 <= p < |ts| && (ts[p].BlockDelta? || ts[p].BlockStop?) ::
          BlockStart(ts[p].index) in ts[..p] && BlockStop(ts[p].index) !in ts[..p])
    && (forall p, i: string | 0 <= p < |ts| && ts[p].MessageStop? && BlockStart(i) in ts[..p] ::
          BlockStop(i) in ts[..p])
  }

  /** A complete trace: plausible and ended by message_stop. */
  ghost predicate WellFormed(ts: seq<Token>) { ts != [] && Plausible(ts) && ts[|ts| - 1].MessageStop? }

  function RunTokens(ts: seq<Token>): Option<State> {
    if ts == [] then Some(START)
    else
      match RunTokens(ts[..|ts| - 1])
      case None => None
      case Some(s) => if s.terminal then None else AnthropicStep(s, ts[|ts| - 1])
  }

  /** The automaton's state is the trace's summary. */
  ghost predicate Summarises(s: State, ts: seq<Token>) {
    && (s.started <==> MessageStart in ts)
    && (s.terminal <==> MessageStop in ts)
    && (forall i: string :: i in s.seen <==> BlockStart(i) in ts)
    && (forall i: string :: i in s.open <==> BlockStart(i) in ts && BlockStop(i) !in ts)
  }

  lemma {:induction false} PlausiblePrefix(ts: seq<Token>, t: Token)
    ensures Plausible(ts + [t]) ==> Plausible(ts)
    ensures Plausible(ts + [t]) ==> MessageStop !in ts
  {
    var all := ts + [t];
    assert forall p | 0 <= p < |ts| :: all[p] == ts[p] && all[..p] == ts[..p];
  }

  /** One more token, given the summary of what came before. */
  ghost predicate Admissible(ts: seq<Token>, t: Token) {
    && MessageStop !in ts
    && (!t.MessageStart? && !t.Ping? ==> MessageStart in ts)
    && (t.MessageStart? ==> MessageStart !in ts)
    && (t.BlockStart? ==> t !in ts)
    && (t.BlockDelta? || t.BlockStop? ==> BlockStart(t.index) in ts && BlockStop(t.index) !in ts)
    && (t.MessageStop? ==> forall i: string | BlockStart(i) in ts :: BlockStop(i) in ts)
  }

  lemma {:induction false} PlausibleSnoc(ts: seq<Token>, t: Token)
    requires Plausible(ts)
    ensures Plausible(ts + [t]) <==> Admissible(ts, t)
  {
    var all := ts + [t];
    assert forall p | 0 <= p < |ts| :: all[p] == ts[p] && all[..p] == ts[..p];
    assert all[..|ts|] == ts && all[|ts|] == t;
  }

  lemma {:induction false} StopFollowsStart(ts: seq<Token>, i: string)
    requires Plausible(ts) && BlockStop(i) in ts
    ensures BlockStart(i) in ts
  {
    var p :| 0 <= p < |ts| && ts[p] == BlockStop(i);
    assert BlockStart(i) in ts[..p];
  }

  lemma {:induction false} StepIffAdmissible(s: State, ts: seq<Token>, t: Token)
    requires Summarises(s, ts) && Plausible(ts)
    ensures !s.terminal && AnthropicStep(s, t).Some? <==> Admissible(ts, t)
    ensures Admissible(ts, t) ==> Summarises(AnthropicStep(s, t).value, ts + [t])
  {
    if t.MessageStop? {
      if s.open != {} {
        var i :| i in s.open;
        assert BlockStart(i) in ts && BlockStop(i) !in ts;
      } else {
        forall i: string | BlockStart(i) in ts ensures BlockStop(i) in ts { assert i !in s.open; }
      }
    }
    if Admissible(ts, t) {
      var next := AnthropicStep(s, t).value;
      assert forall x: Token :: x in ts + [t] <==> x in ts || x == t;
      if t.BlockStart? && BlockStop(t.index) in ts { StopFollowsStart(ts, t.index); }
    }
  }

  lemma {:induction false} TokensAccepted(ts: seq<Token>)
    ensures RunTokens(ts).Some? <==> Plausible(ts)
    ensures RunTokens(ts).Some? ==> Summarises(RunTokens(ts).value, ts)
  {
    if ts != [] {
      var init, t := ts[..|ts| - 1], ts[|ts| - 1];
      assert ts == init + [t];
      TokensAccepted(init);
      PlausiblePrefix(init, t);
      if RunTokens(init).Some? {
        PlausibleSnoc(init, t);
        StepIffAdmissible(RunTokens(init).value, init, t);
      }
    }
  }

  // ---- From events to tokens ----

  predicate AllOf(items: seq<Item>, family: Family) {
    forall p | 0 <= p < |items| ::
      items[p].Payload? && LocallyOk(items[p].value, items[p].name) && FamilyOf(items[p].value) == Some(family)
  }

  function Tokens(items: seq<Item>): seq<Token> {
    seq(|items|, p requires 0 <= p < |items| => if items[p].Payload? then TokenOf(items[p].value) else Ping)
  }

  function WithFamily(r: Option<State>, family: Family): Option<State> {
    match r
    case None => None
    case Some(s) => Some(s.(family := Some(family)))
  }

  lemma {:induction false} ObserveFamily(s: State, item: Item)
    requires Observe(s, item).Some?
    ensures item.Done? ==> Observe(s, item).value.family == Some(Chat)
    ensures item.Payload? ==>
      && LocallyOk(item.value, item.name) && Observe(s, item).value.family == FamilyOf(item.value)
      && (s.family.None? || s.family == FamilyOf(item.value))
  {}

  /** Unless it is a chat stream, which may end with the marker, a stream consists of payloads of
      its family only. */
  lemma {:induction false} FamilyIsCommon(items: seq<Item>, family: Family)
    requires Run(items).Some? && family != Chat
    ensures Run(items).value.family == Some(family) ==> AllOf(items, family) && items != []
    ensures Run(items).value.family == None ==> items == []
  {
    hide FamilyOf, LocallyOk, AllOf, Observe;
    if items != [] {
      var init, item := items[..|items| - 1], items[|items| - 1];
      FamilyIsCommon(init, family);
      ObserveFamily(Run(init).value, item);
      if item.Payload? && FamilyOf(item.value) == Some(family) {
        AllOfSnoc(init, item, family);
        assert items == init + [item];
      }
    }
  }

  lemma {:induction false} AllOfSnoc(init: seq<Item>, item: Item, family: Family)
    requires init == [] || AllOf(init, family)
    requires item.Payload? && LocallyOk(item.value, item.name) && FamilyOf(item.value) == Some(family)
    ensures AllOf(init + [item], family)
  {
    var items := init + [item];
    forall p | 0 <= p < |items|
      ensures items[p].Payload? && LocallyOk(items[p].value, items[p].name) && FamilyOf(items[p].value) == Some(family)
    {
      assert items[p] == if p < |init| then init[p] else item;
    }
  }

  lemma {:induction false} RunIsTokens(items: seq<Item>)
    requires AllOf(items, Anthropic) && items != []
    ensures Run(items) == WithFamily(RunTokens(Tokens(items)), Anthropic)
  {
    var init, item := items[..|items| - 1], items[|items| - 1];
    assert Tokens(items)[..|items| - 1] == Tokens(init);
    assert Tokens(items)[|items| - 1] == TokenOf(item.value);
    if init != [] {
      RunIsTokens(init);
      if RunTokens(Tokens(init)).Some? {
        var s := RunTokens(Tokens(init)).value;
        FamilyDoesNotMatter(s, TokenOf(item.value));
      }
    } else {
      assert Tokens(init) == [];
    }
  }

  lemma {:induction false} FamilyDoesNotMatter(s: State, t: Token)
    ensures WithFamily(AnthropicStep(s.(family := Some(Anthropic)), t), Anthropic)
         == WithFamily(AnthropicStep(s, t), Anthropic)
  {}

  /** A stream of Anthropic events that pass their own checks is accepted exactly when its trace is
      well formed. */
  lemma {:induction false} AnthropicAcceptedIff(items: seq<Item>)
    requires items != [] && AllOf(items, Anthropic)
    ensures Accepted(items) <==> WellFormed(Tokens(items))
  {
    RunIsTokens(items);
    TokensAccepted(Tokens(items));
    var ts := Tokens(items);
    if Plausible(ts) {
      assert MessageStop in ts <==> ts[|ts| - 1].MessageStop? by {
        if MessageStop in ts {
          var p :| 0 <= p < |ts| && ts[p] == MessageStop;
          assert p == |ts| - 1;
        }
      }
    }
  }

  /** A stream is accepted as an Anthropic one if and only if everything in it is an Anthropic
      event, each event passes its own checks, and the trace is well formed. */
  lemma {:induction false} AcceptedAnthropicIsWellFormed(items: seq<Item>)
    ensures Accepted(items) && Run(items).value.family == Some(Anthropic) <==>
            AllOf(items, Anthropic) && WellFormed(Tokens(items))
  {
    if Accepted(items) && Run(items).value.family == Some(Anthropic) { FamilyIsCommon(items, Anthropic); }
    if AllOf(items, Anthropic) {
      if items != [] {
        AnthropicAcceptedIff(items);
        RunIsTokens(items);
      }
    }
  }

  /** The first event fixes the family. */
  lemma {:induction false} FamilyIsFirst(items: seq<Item>)
    requires items != [] && Run(items).Some?
    ensures Run(items).value.family == if items[0].Done? then Some(Chat) else FamilyOf(items[0].value)
  {
    var init, item := items[..|items| - 1], items[|items| - 1];
    ObserveFamily(Run(init).value, item);
    if init != [] { FamilyIsFirst(init); }
  }

  /** What well-formedness says of one block: it is opened once and closed once, later, and every
      delta of the block lies in between. */
  lemma {:induction false} BlocksAreBracketed(ts: seq<Token>, p: nat)
    requires WellFormed(ts) && p < |ts| && ts[p].BlockStart?
    ensures exists q :: p < q < |ts| && ts[q] == BlockStop(ts[p].index)
              && (forall r | 0 <= r < |ts| && r != p :: ts[r] != ts[p])
              && (forall r | 0 <= r < |ts| && r != q :: ts[r] != ts[q])
              && (forall r | 0 <= r < |ts| && ts[r] == BlockDelta(ts[p].index) :: p < r < q)
  {
    var i, n := ts[p].index, |ts| - 1;
    assert ts[p] in ts[..n];
    assert BlockStop(i) in ts[..n];
    var q :| 0 <= q < n && ts[..n][q] == BlockStop(i);
    OnlyOnce(ts, p);
    StopOnlyOnce(ts, q);
    assert BlockStart(i) in ts[..q];
    var o :| 0 <= o < q && ts[..q][o] == BlockStart(i);
    assert o == p;
    forall r | 0 <= r < |ts| && ts[r] == BlockDelta(i) ensures p < r < q {
      assert BlockStart(i) in ts[..r];
      var o' :| 0 <= o' < r && ts[..r][o'] == BlockStart(i);
      assert o' == p;
      assert BlockStop(i) !in ts[..r];
      assert forall k | 0 <= k < r :: ts[..r][k] == ts[k];
    }
  }

  lemma {:induction false} OnlyOnce(ts: seq<Token>, p: nat)
    requires Plausible(ts) && p < |ts| && ts[p].BlockStart?
    ensures forall r | 0 <= r < |ts| && r != p :: ts[r] != ts[p]
  {
    forall r | 0 <= r < |ts| && r != p ensures ts[r] != ts[p] {
      if r < p { assert ts[..p][r] == ts[r]; } else { assert ts[..r][p] == ts[p]; }
    }
  }

  lemma {:induction false} StopOnlyOnce(ts: seq<Token>, q: nat)
    requires Plausible(ts) && q < |ts| && ts[q].BlockStop?
    ensures forall r | 0 <= r < |ts| && r != q :: ts[r] != ts[q]
  {
    forall r | 0 <= r < |ts| && r != q ensures ts[r] != ts[q] {
      if r < q { assert ts[..q][r] == ts[r]; } else { assert ts[..r][q] == ts[q]; }
    }
  }

  // ---- Gemini ----

  /** No candidate carries parts after it finished. */
  ghost predicate Quiet(cs: seq<Candidate>) {
    forall p, q | 0 <= p < q < |cs| && cs[p].number == cs[q].number && cs[p].finishes :: !cs[q].parts
  }

  /** Every candidate seen also finishes. */
  ghost predicate AllFinish(cs: seq<Candidate>) {
    forall p | 0 <= p < |cs| :: Finishes(cs, cs[p].number)
  }

  ghost predicate Shows(cs: seq<Candidate>, n: string) { exists p :: 0 <= p < |cs| && cs[p].number == n }

  ghost predicate Finishes(cs: seq<Candidate>, n: string) {
    exists p :: 0 <= p < |cs| && cs[p].number == n && cs[p].finishes
  }

  ghost predicate SummarisesCandidates(s: State, cs: seq<Candidate>) {
    && (forall n: string :: n in s.candidates <==> Shows(cs, n))
    && (forall n: string :: n in s.finished <==> Finishes(cs, n))
  }

  lemma {:induction false} GeminiStepIff(s: State, cs: seq<Candidate>, c: Candidate)
    requires SummarisesCandidates(s, cs) && Quiet(cs)
    ensures GeminiStep(s, c).Some? <==> Quiet(cs + [c])
    ensures GeminiStep(s, c).Some? ==> SummarisesCandidates(GeminiStep(s, c).value, cs + [c])
  {
    var all := cs + [c];
    if c.number in s.finished && c.parts {
      var p :| 0 <= p < |cs| && cs[p].number == c.number && cs[p].finishes;
      assert all[p] == cs[p] && all[|cs|] == c;
    } else {
      var next := GeminiStep(s, c).value;
      forall n: string
        ensures Shows(all, n) <==> Shows(cs, n) || n == c.number
        ensures Finishes(all, n) <==> Finishes(cs, n) || (n == c.number && c.finishes)
      {
        ShownAfter(cs, c, n);
      }
    }
  }

  lemma {:induction false} ShownAfter(cs: seq<Candidate>, c: Candidate, n: string)
    ensures Shows(cs + [c], n) <==> Shows(cs, n) || n == c.number
    ensures Finishes(cs + [c], n) <==> Finishes(cs, n) || (n == c.number && c.finishes)
  {
    var all := cs + [c];
    if Shows(cs, n) { var p :| 0 <= p < |cs| && cs[p].number == n; assert all[p].number == n; }
    if Finishes(cs, n) {
      var p :| 0 <= p < |cs| && cs[p].number == n && cs[p].finishes;
      assert all[p].number == n && all[p].finishes;
    }
    assert all[|cs|] == c;
  }

  lemma {:induction false} GeminiStepsIff(s: State, before: seq<Candidate>, cs: seq<Candidate>)
    requires SummarisesCandidates(s, before) && Quiet(before)
    ensures GeminiSteps(s, cs).Some? <==> Quiet(before + cs)
    ensures GeminiSteps(s, cs).Some? ==> SummarisesCandidates(GeminiSteps(s, cs).value, before + cs)
    ensures GeminiSteps(s, cs).Some? ==> GeminiSteps(s, cs).value.terminal == s.terminal
    decreases |cs|
  {
    if cs == [] {
      assert before + cs == before;
    } else {
      GeminiStepIff(s, before, cs[0]);
      assert before + [cs[0]] + cs[1..] == before + cs;
      if GeminiStep(s, cs[0]).Some? {
        GeminiStepsIff(GeminiStep(s, cs[0]).value, before + [cs[0]], cs[1..]);
      } else {
        QuietPrefix(before + [cs[0]], cs[1..]);
      }
    }
  }

  lemma {:induction false} QuietPrefix(a: seq<Candidate>, b: seq<Candidate>)
    ensures Quiet(a + b) ==> Quiet(a)
  {
    if Quiet(a + b) {
      forall p, q | 0 <= p < q < |a| && a[p].number == a[q].number && a[p].finishes ensures !a[q].parts {
        assert (a + b)[p] == a[p] && (a + b)[q] == a[q];
      }
    }
  }

  function Candidates(items: seq<Item>): seq<Candidate> {
    if items == [] then []
    else
      var n := |items| - 1;
      Candidates(items[..n]) + (if items[n].Payload? then TokensOf(items[n].value) else [])
  }

  ghost predicate GeminiState(r: Option<State>, items: seq<Item>) {
    && (r.Some? <==> Quiet(Candidates(items)))
    && (r.Some? ==>
          && SummarisesCandidates(r.value, Candidates(items)) && !r.value.terminal
          && r.value.family == if items == [] then None else Some(Gemini))
  }

  lemma {:induction false} GeminiObserve(s: State, items: seq<Item>, item: Item)
    requires GeminiState(Some(s), items) && AllOf([item], Gemini)
    ensures GeminiState(Observe(s, item), items + [item])
  {
    hide GeminiSteps, LocallyOk, Quiet;
    assert [item][0] == item;
    var cs := TokensOf(item.value);
    assert (items + [item])[..|items|] == items;
    assert Candidates(items + [item]) == Candidates(items) + cs;
    GeminiStepsIff(s, Candidates(items), cs);
    assert Observe(s, item) == WithFamily(GeminiSteps(s, cs), Gemini);
  }

  lemma {:induction false} GeminiRuns(items: seq<Item>)
    requires AllOf(items, Gemini)
    ensures GeminiState(Run(items), items)
  {
    if items != [] {
      var init, item := items[..|items| - 1], items[|items| - 1];
      assert items == init + [item];
      assert AllOf([item], Gemini);
      GeminiRuns(init);
      if Run(init).Some? {
        GeminiObserve(Run(init).value, init, item);
      } else {
        QuietPrefix(Candidates(init), TokensOf(item.value));
      }
    }
  }

  lemma {:induction false} SeenIff(s: State, cs: seq<Candidate>)
    requires SummarisesCandidates(s, cs)
    ensures s.candidates != {} <==> cs != []
  {
    if cs != [] { assert cs[0].number in s.candidates; }
    if s.candidates != {} { var n :| n in s.candidates; }
  }

  lemma {:induction false} AllFinishIff(s: State, cs: seq<Candidate>)
    requires SummarisesCandidates(s, cs)
    ensures s.candidates <= s.finished <==> AllFinish(cs)
    ensures s.finished <= s.candidates
  {
    forall p | 0 <= p < |cs| ensures Shows(cs, cs[p].number) {}
    if AllFinish(cs) {
      forall n | n in s.candidates ensures n in s.finished {
        var p :| 0 <= p < |cs| && cs[p].number == n;
      }
    }
    forall n | n in s.finished ensures n in s.candidates {
      var p :| 0 <= p < |cs| && cs[p].number == n && cs[p].finishes;
    }
  }

  /** A Gemini stream is accepted exactly when it shows a candidate, every candidate shown
      finishes, and none carries parts after finishing. */
  lemma {:induction false} GeminiAcceptedIff(items: seq<Item>)
    requires items != [] && AllOf(items, Gemini)
    ensures Accepted(items) <==> Candidates(items) != [] && Quiet(Candidates(items)) && AllFinish(Candidates(items))
  {
    GeminiRuns(items);
    GeminiEnds(Run(items), items);
  }

  lemma {:induction false} GeminiEnds(r: Option<State>, items: seq<Item>)
    requires items != [] && GeminiState(r, items)
    ensures r.Some? && EndsWell(r.value) <==>
            Candidates(items) != [] && Quiet(Candidates(items)) && AllFinish(Candidates(items))
  {
    if r.Some? {
      var s, cs := r.value, Candidates(items);
      SeenIff(s, cs);
      AllFinishIff(s, cs);
      assert s.candidates == s.finished <==> s.candidates <= s.finished;
    }
  }

  /** What the Gemini checks demand of the candidates of a stream, in order. */
  ghost predicate GeminiTrace(cs: seq<Candidate>) { cs != [] && Quiet(cs) && AllFinish(cs) }

  /** A stream is accepted as a Gemini one if and only if everything in it is a Gemini event, each
      event passes its own checks, and the candidates meet that condition. */
  lemma {:induction false} AcceptedGeminiIsWellFormed(items: seq<Item>)
    ensures Accepted(items) && Run(items).value.family == Some(Gemini) <==>
            AllOf(items, Gemini) && GeminiTrace(Candidates(items))
  {
    if Accepted(items) && Run(items).value.family == Some(Gemini) { FamilyIsCommon(items, Gemini); }
    if AllOf(items, Gemini) {
      if items != [] {
        GeminiAcceptedIff(items);
        GeminiRuns(items);
      }
    }
  }

  // ---- Chat, Responses and MCP ----

  lemma {:induction false} AllOfPrefix(items: seq<Item>, family: Family)
    requires items != [] && AllOf(items, family)
    ensures AllOf(items[..|items| - 1], family)
    ensures var last := items[|items| - 1];
            last.Payload? && LocallyOk(last.value, last.name) && FamilyOf(last.value) == Some(family)
  {}

  /** The payloads of a chat stream and of an MCP stream leave no trace but their family. */
  lemma {:induction false} PlainRun(items: seq<Item>, family: Family)
    requires items != [] && AllOf(items, family) && family in {Chat, Mcp}
    ensures Run(items) == Some(START.(family := Some(family)))
  {
    hide LocallyOk, FamilyOf, AllOf;
    AllOfPrefix(items, family);
    if |items| > 1 { PlainRun(items[..|items| - 1], family); }
  }

  /** A chat stream: chat chunks, and then the end marker as the last event. */
  predicate ChatTrace(items: seq<Item>) {
    items != [] && items[|items| - 1].Done? && AllOf(items[..|items| - 1], Chat)
  }

  lemma {:induction false} ChatRun(items: seq<Item>)
    requires Run(items).Some?
    ensures Run(items).value.family == None ==> items == []
    ensures Run(items).value.family == Some(Chat) ==>
              items != [] && if Run(items).value.terminal then ChatTrace(items) else AllOf(items, Chat)
  {
    hide LocallyOk, FamilyOf, AllOf, AnthropicStep, GeminiSteps;
    if items != [] {
      var init, item := items[..|items| - 1], items[|items| - 1];
      ChatRun(init);
      ObserveFamily(Run(init).value, item);
      NothingIsAllOf(Chat);
      if item.Payload? && FamilyOf(item.value) == Some(Chat) {
        AllOfSnoc(init, item, Chat);
        assert items == init + [item];
      }
    }
  }

  lemma {:induction false} NothingIsAllOf(family: Family)
    ensures AllOf([], family)
  {}

  /** A chat stream is accepted if and only if it consists of chat chunks that pass their own
      checks and of one end marker, which comes last. */
  lemma {:induction false} AcceptedChatIff(items: seq<Item>)
    ensures Accepted(items) && Run(items).value.family == Some(Chat) <==> ChatTrace(items)
  {
    hide LocallyOk, FamilyOf, AllOf, Advance;
    if Accepted(items) && Run(items).value.family == Some(Chat) { ChatRun(items); }
    if ChatTrace(items) {
      var init := items[..|items| - 1];
      if init != [] { PlainRun(init, Chat); }
      assert Run(init).Some? && Run(init).value.family in {None, Some(Chat)} && !Run(init).value.terminal;
    }
  }

  predicate Completes(item: Item) {
    item.Payload? && TypeOf(item.value) in {"response.completed", "response.failed"}
  }

  /** A Responses stream: its last event, and no other, completes or fails the response. */
  predicate ResponsesTrace(items: seq<Item>) {
    && items != [] && AllOf(items, Responses)
    && forall p | 0 <= p < |items| :: Completes(items[p]) <==> p == |items| - 1
  }

  predicate CompletesEarly(items: seq<Item>) { exists p | 0 <= p < |items| - 1 :: Completes(items[p]) }

  lemma {:induction false} ResponsesRun(items: seq<Item>)
    requires items != [] && AllOf(items, Responses)
    ensures Run(items) == if CompletesEarly(items) then None
                          else Some(START.(family := Some(Responses), terminal := Completes(items[|items| - 1])))
  {
    hide LocallyOk, FamilyOf, AllOf;
    var init, item := items[..|items| - 1], items[|items| - 1];
    AllOfPrefix(items, Responses);
    if init != [] {
      ResponsesRun(init);
      EarlierCompletes(items);
    }
  }

  lemma {:induction false} EarlierCompletes(items: seq<Item>)
    requires |items| > 1
    ensures CompletesEarly(items) <==> CompletesEarly(items[..|items| - 1]) || Completes(items[|items| - 2])
  {
    var init := items[..|items| - 1];
    if CompletesEarly(items) {
      var p :| 0 <= p < |items| - 1 && Completes(items[p]);
      assert p < |init| - 1 ==> Completes(init[p]);
    }
    if CompletesEarly(init) {
      var p :| 0 <= p < |init| - 1 && Completes(init[p]);
      assert Completes(items[p]);
    }
  }

  /** A Responses stream is accepted if and only if all its events are of that family, pass their
      own checks, and exactly the last one completes or fails the response. */
  lemma {:induction false} AcceptedResponsesIff(items: seq<Item>)
    ensures Accepted(items) && Run(items).value.family == Some(Responses) <==> ResponsesTrace(items)
  {
    hide LocallyOk, FamilyOf, AllOf, Observe;
    if Accepted(items) && Run(items).value.family == Some(Responses) { FamilyIsCommon(items, Responses); }
    if items != [] && AllOf(items, Responses) { ResponsesRun(items); }
  }

  lemma {:induction false} AcceptedMcpIff(items: seq<Item>)
    ensures Accepted(items) && Run(items).value.family == Some(Mcp) <==> items != [] && AllOf(items, Mcp)
  {
    hide LocallyOk, FamilyOf, AllOf, Observe;
    if Accepted(items) && Run(items).value.family == Some(Mcp) { FamilyIsCommon(items, Mcp); }
    if items != [] && AllOf(items, Mcp) { PlainRun(items, Mcp); }
  }

  /** Nothing, or one whole stream of one protocol. */
  ghost predicate WholeStream(items: seq<Item>) {
    || items == [] || ChatTrace(items) || ResponsesTrace(items) || (items != [] && AllOf(items, Mcp))
    || (AllOf(items, Anthropic) && WellFormed(Tokens(items)))
    || (AllOf(items, Gemini) && GeminiTrace(Candidates(items)))
  }

  /** What the protocol checks accept, all of it. */
  lemma {:induction false} AcceptedIff(items: seq<Item>)
    ensures Accepted(items) <==> WholeStream(items)
  {
    hide AllOf, WellFormed, Tokens, GeminiTrace, Candidates, ChatTrace, ResponsesTrace, Observe;
    AcceptedChatIff(items);
    AcceptedResponsesIff(items);
    AcceptedMcpIff(items);
    AcceptedAnthropicIsWellFormed(items);
    AcceptedGeminiIsWellFormed(items);
    if items == [] {
      assert Accepted(items);
    } else if Accepted(items) {
      ChatRun(items);
      match Run(items).value.family {
        case Some(Chat) => assert ChatTrace(items);
        case Some(Responses) => assert ResponsesTrace(items);
        case Some(Mcp) => assert AllOf(items, Mcp);
        case Some(Anthropic) => assert WellFormed(Tokens(items));
        case Some(Gemini) => assert GeminiTrace(Candidates(items));
      }
    }
  }
}
