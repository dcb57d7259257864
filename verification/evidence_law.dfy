/** Which action goes on record for a stream, in the outcomes of its messages. */
module EvidenceLaw {
  import opened Wrappers
  import opened ExtProc
  import opened ExtProcEnd
  import opened Evidence

  /** A response verdict other than allow comes first, then the request's; what did not complete is
      unknown, unless it was not let through. */
  lemma {:induction false} JudgedTable(request: Option<Action>, response: Option<Action>, completed: bool)
    ensures var action := Judged(Known(request, response), completed);
            && (response in [Some(Block), Some(ApprovalRequired), Some(Unknown)] ==> Some(action) == response)
            && (response == Some(Redact) ==> action == if completed then Redact else Unknown)
            && (response in [None, Some(Allow)] ==>
                  && (request in [Some(Block), Some(ApprovalRequired), Some(Unknown)] ==> Some(action) == request)
                  && (request in [Some(Allow), Some(Redact)] ==> action == if completed then request.value else Unknown)
                  && (request == None ==> action == Unknown))
  {}

  /** Where the engine judges the request: its headers when they announce no body, else its body. */
  function RequestAt(events: seq<Event>): nat { ResponseAt(events) - 1 }

  function VerdictOn(e: Event): Option<Action> {
    if !e.Message? && e.outcome.Verdict? then Some(e.outcome.action) else None
  }

  // ---- What is noted on the way ----

  lemma {:induction false} StateIsStateAt(events: seq<Event>, i: nat)
    requires i <= |events| && AllFine(events, i)
    ensures StateAfter(events[..i]) == StateAt(events, i)
  {
    hide InPlace, LetsThrough, StateAt, After;
    if i == 0 {
      assert events[..0] == [];
      StartState(events);
    } else {
      assert Fine(events, i - 1);
      StateIsStateAt(events, i - 1);
      assert events[..i][..i - 1] == events[..i - 1];
      PlaceIffSequence(events, i - 1);
    }
  }

  lemma {:induction false} StartState(events: seq<Event>)
    ensures StateAt(events, 0) == START
  {}

  /** Until the response body is judged only the request's verdict is noted, where it is given. */
  lemma {:induction false} NotedSoFar(events: seq<Event>, i: nat)
    requires i <= |events| && AllFine(events, i) && forall j | 0 <= j < i :: !events[j].ResponseBody?
    ensures var known, q := KnownAfter(events[..i]), RequestAt(events);
            && known.response == None
            && known.request == if q < i then VerdictOn(events[q]) else None
  {
    hide StateAfter, StateAt;
    if i == 0 {
      assert events[..0] == [];
    } else {
      var last := events[i - 1];
      assert Fine(events, i - 1);
      NotedSoFar(events, i - 1);
      StateIsStateAt(events, i - 1);
      PlaceIffSequence(events, i - 1);
      OneMoreMessage(events, i - 1);
    }
  }

  lemma {:induction false} SentIsAnswered(f: Fate)
    requires Completes(Inline, f)
    ensures var t, events := Terminal(Inline, f), f.events;
            && t < |Sent(Inline, f)| && t < |events| && AllFine(events, t)
            && (if Sent(Inline, f)[t] == Immediate then
                  !Fine(events, t) &&
                  (InPlace(events, t) ==> events[t].outcome.Refused? || events[t].outcome.Verdict?)
                else
                  Fine(events, t) && (events[t].ResponseBody? || (events[t].ResponseHeaders? && events[t].end)))
    ensures forall j | 0 <= j < Terminal(Inline, f) :: Fine(f.events, j) && Answers(Sent(Inline, f)[j], f.events[j])
  {
    hide InPlace, LetsThrough, Replies;
    var t, events, n := Terminal(Inline, f), f.events, Stop(f.events, 0);
    ShownInline(events);
    FinalReplyIff(events, f.finish);
    var rs, sent := Replies(START, events, f.finish), Sent(Inline, f);
    assert sent[t] == rs[t];
    assert forall i | 0 <= i < n :: Fine(events, i) && Answers(rs[i], events[i]);
    if t < n {
      assert Fine(events, t);
      OneMoreMessage(events, t);
    } else {
      assert rs[n..][0] == rs[n];
    }
  }

  lemma {:induction false} BodiesComeLast(f: Fate)
    requires Completes(Inline, f)
    ensures forall j | 0 <= j < Terminal(Inline, f) :: j < |f.events| && !f.events[j].ResponseBody?
  {
    hide InPlace, LetsThrough, Sent;
    SentIsAnswered(f);
    forall j | 0 <= j < Terminal(Inline, f) ensures !f.events[j].ResponseBody? {
      assert Answers(Sent(Inline, f)[j], f.events[j]);
      assert !IsTerminal(Sent(Inline, f)[j], f.events[..j + 1]);
    }
  }

  lemma {:induction false} RecordIs(f: Fate)
    requires Completes(Inline, f)
    ensures KnownAtRecord(Inline, f) == KnownAfter(f.events[..Terminal(Inline, f) + 1])
    ensures forall r | r in Served(Inline, f).log :: r == Record(Judged(KnownAtRecord(Inline, f), true), true, true)
  {
    hide KnownAfter, Judged, Sent;
  }

  /** The last message was fine: a response body, or response headers without one. */
  lemma {:induction false} PassedIsJudged(events: seq<Event>, t: nat)
    requires t < |events| && AllFine(events, t) && Fine(events, t) && forall j | 0 <= j < t :: !events[j].ResponseBody?
    requires events[t].ResponseBody? || (events[t].ResponseHeaders? && events[t].end)
    ensures RequestAt(events) < t && AllFine(events, t + 1)
    ensures Some(Judged(KnownAfter(events[..t + 1]), true)) ==
            if events[t].ResponseBody? && VerdictOn(events[t]) == Some(Redact) then Some(Redact)
            else VerdictOn(events[RequestAt(events)])
  {
    hide KnownAfter, StateAfter;
    assert RequestAt(events) < t;
    assert Fine(events, RequestAt(events));
    NotedSoFar(events, t);
    OneMoreMessage(events, t);
    StateIsStateAt(events, t);
    PlaceIffSequence(events, t);
  }

  /** The last message was answered at once. */
  lemma {:induction false} EndedIsJudged(events: seq<Event>, t: nat)
    requires t < |events| && AllFine(events, t) && !Fine(events, t) && forall j | 0 <= j < t :: !events[j].ResponseBody?
    requires InPlace(events, t) ==> events[t].outcome.Refused? || events[t].outcome.Verdict?
    ensures var action := Judged(KnownAfter(events[..t + 1]), true);
            && !Lets(action)
            && action == if InPlace(events, t) && VerdictOn(events[t]).Some? then VerdictOn(events[t]).value else Block
  {
    hide KnownAfter, StateAfter, StateAt;
    NotedSoFar(events, t);
    OneMoreMessage(events, t);
    StateIsStateAt(events, t);
    PlaceIffSequence(events, t);
  }

  // ---- Main result ----

  /** The action that a completed inline stream leaves on record, in the outcomes of its messages: of
      a stream that was ended, the verdict that ended it, or block for a refusal and for a message out
      of its place; of one that went through, redact if the response was redacted, else the verdict on
      the request. */
  lemma {:induction false} CompletedRecord(f: Fate)
    requires Completes(Inline, f)
    ensures var t, events := Terminal(Inline, f), f.events;
            var action := Judged(KnownAtRecord(Inline, f), true);
            && t < |events|
            && (forall r | r in Served(Inline, f).log :: r == Record(action, true, true))
            && (Sent(Inline, f)[t] == Immediate ==>
                  action == if InPlace(events, t) && VerdictOn(events[t]).Some? then VerdictOn(events[t]).value
                            else Block)
            && (Sent(Inline, f)[t] != Immediate ==>
                  && AllFine(events, t + 1) && RequestAt(events) < t
                  && Some(action) == if events[t].ResponseBody? && VerdictOn(events[t]) == Some(Redact)
                                     then Some(Redact)
                                     else VerdictOn(events[RequestAt(events)]))
    ensures Sent(Inline, f)[Terminal(Inline, f)] == Immediate ==> !Lets(Judged(KnownAtRecord(Inline, f), true))
  {
    hide KnownAfter, StateAfter, Served, Sent, InPlace, LetsThrough, Learn, Judged, Terminal, RequestAt;
    var t, events := Terminal(Inline, f), f.events;
    SentIsAnswered(f);
    BodiesComeLast(f);
    NotedSoFar(events, t);
    OneMoreMessage(events, t);
    RecordIs(f);
    if Fine(events, t) { PassedIsJudged(events, t); } else { EndedIsJudged(events, t); }
  }
}
