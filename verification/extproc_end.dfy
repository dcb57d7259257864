/** How an ExtProc stream ends, for every way in which its incoming side can. */
module ExtProcEnd {
  import opened Wrappers
  import opened ExtProc

  // ---- The legal streams, place by place ----

  /** Where the response headers belong: after the request headers, and the body if they announce one. */
  function ResponseAt(events: seq<Event>): nat {
    if events != [] && events[0].RequestHeaders? && events[0].end then 1 else 2
  }

  predicate AnnouncesBody(e: Event) { (e.RequestHeaders? || e.ResponseHeaders?) && !e.end }

  /** Message i is of the kind that belongs there. */
  predicate InPlace(events: seq<Event>, i: nat)
    requires i < |events|
  {
    var k := ResponseAt(events);
    match events[i]
    case RequestHeaders(_, _) => i == 0
    case RequestBody(_) => i == 1 && AnnouncesBody(events[0])
    case ResponseHeaders(_, _) => i == k
    case ResponseBody(_) => i == k + 1 && AnnouncesBody(events[k])
    case Message => false
  }

  /** The outcome of a message that lets the stream go on: no refusal of headers that announce a body
      or of response headers, an allow or a redact of anything else. */
  predicate LetsThrough(e: Event) {
    match e
    case RequestHeaders(end, o) => o.Verdict? && (end ==> o.action in [Allow, Redact])
    case RequestBody(o) => o.Verdict? && o.action in [Allow, Redact]
    case ResponseHeaders(_, o) => o.Verdict?
    case ResponseBody(o) => o.Verdict? && o.action in [Allow, Redact]
    case Message => false
  }

  predicate Fine(events: seq<Event>, i: nat)
    requires i < |events|
  {
    InPlace(events, i) && LetsThrough(events[i])
  }

  predicate AllFine(events: seq<Event>, n: nat)
    requires n <= |events|
  {
    forall i | 0 <= i < n :: Fine(events, i)
  }

  /** The first message from place i on that is not fine, or the end. */
  function Stop(events: seq<Event>, i: nat): (n: nat)
    requires i <= |events|
    ensures i <= n <= |events| && (forall j | i <= j < n :: Fine(events, j)) && (n < |events| ==> !Fine(events, n))
    decreases |events| - i
  {
    if i == |events| || !Fine(events, i) then i else Stop(events, i + 1)
  }

  /** Both directions were checked: the response headers came, and the body if they announce one. */
  predicate Complete(events: seq<Event>) {
    var k := ResponseAt(events);
    k < |events| && (AnnouncesBody(events[k]) ==> k + 1 < |events|)
  }

  // ---- The loop's state at each place ----

  function StateAt(events: seq<Event>, i: nat): State
    requires i <= |events|
  {
    var k := ResponseAt(events);
    State(i > 0, i > 0 && (i > 1 || k == 1), i > k, i > k && (i > k + 1 || !AnnouncesBody(events[k])))
  }

  lemma {:induction false} PlaceIffSequence(events: seq<Event>, i: nat)
    requires i < |events| && AllFine(events, i)
    ensures InSequence(StateAt(events, i), events[i]) <==> InPlace(events, i)
    ensures Proceeds(events[i]) <==> LetsThrough(events[i])
    ensures Fine(events, i) ==> After(StateAt(events, i), events[i]) == StateAt(events, i + 1)
  {
    var k := ResponseAt(events);
    if i > 0 { assert Fine(events, 0) && events[0].RequestHeaders?; }
    if i > 1 { assert Fine(events, 1); }
    if i > 2 { assert Fine(events, 2); }
    if i > 3 { assert Fine(events, 3); }
  }

  /** What the stream answers from place i on. */
  lemma {:induction false} RepliesFrom(events: seq<Event>, i: nat, finish: Finish)
    requires i <= |events| && AllFine(events, i)
    ensures var rs, n := Replies(StateAt(events, i), events[i..], finish), Stop(events, i);
            && |rs| >= n - i && (forall j | i <= j < n :: rs[j - i] == Answer(events[j]))
            && rs[n - i..] == if n == |events| then Closing(StateAt(events, n), finish)
                              else if !InPlace(events, n) then [Immediate] else Ending(events[n].outcome)
    decreases |events| - i
  {
    hide StateAt, InSequence, Proceeds, Answer, Closing, Ending, InPlace, LetsThrough, After;
    if i < |events| {
      PlaceIffSequence(events, i);
      assert events[i..][0] == events[i] && events[i..][1..] == events[i + 1..];
      if Fine(events, i) {
        RepliesFrom(events, i + 1, finish);
      }
    }
  }

  // ---- Main result ----

  /** The message at which the stream stops is in its place, and this is its outcome. */
  predicate StopsWith(events: seq<Event>, n: nat, outcome: Outcome) {
    n < |events| && InPlace(events, n) && events[n].outcome == outcome
  }

  /** The reply of the kind that a message asks for. */
  predicate Answers(r: Reply, e: Event) {
    match e
    case RequestHeaders(_, _) => r == ForRequestHeaders
    case RequestBody(_) => r == ForRequestBody
    case ResponseHeaders(_, _) => r == ForResponseHeaders
    case ResponseBody(_) => r == ForResponseBody
    case Message => false
  }

  /** The replies after the n answered messages, told apart. */
  ghost predicate Tail(events: seq<Event>, finish: Finish, n: nat, tail: seq<Reply>)
    requires n <= |events|
  {
    && |tail| <= 1
    && (tail == [] <==>
          || StopsWith(events, n, Cancelled)
          || (n == |events| && (finish == Cancellation || (finish == EndOfStream && Complete(events)))))
    && (tail == [Abort(Deadline)] <==> StopsWith(events, n, TimedOut) || (n == |events| && finish == Elapsed))
    && (tail == [Abort(Internal)] <==> StopsWith(events, n, Crashed) || (n == |events| && finish == Failure))
    && (tail == [Abort(Incomplete)] <==> n == |events| && finish == EndOfStream && !Complete(events))
    && (tail == [Immediate] <==>
          n < |events| && (InPlace(events, n) ==> events[n].outcome.Refused? || events[n].outcome.Verdict?))
  }

  lemma {:induction false} StoppedTail(events: seq<Event>, finish: Finish, n: nat)
    requires n < |events| && !Fine(events, n)
    ensures Tail(events, finish, n, if !InPlace(events, n) then [Immediate] else Ending(events[n].outcome))
  {
    hide InPlace;
    NoOddMessage(events, n);
  }

  lemma {:induction false} EndedTail(events: seq<Event>, finish: Finish)
    requires AllFine(events, |events|)
    ensures Tail(events, finish, |events|, Closing(StateAt(events, |events|), finish))
  {
    hide StateAt, Complete, AllFine;
    CompleteState(events);
  }

  lemma {:induction false} FineAnswers(events: seq<Event>, i: nat)
    requires i < |events| && Fine(events, i)
    ensures Answers(Answer(events[i]), events[i])
  {}

  /** For every sequence of messages and every finish: each message up to the first that is not fine is
      answered in its kind, and then at most one reply follows.  None follows, a clean close, if and
      only if the stream was cancelled, or its end was reached with both directions checked.  The
      deadline is aborted exactly when a message or the stream ran out of time, an internal error
      exactly when something crashed, an incomplete stream exactly when it ended too early; and an
      immediate reply is exactly for a refusal, a verdict that lets nothing through, or a message out
      of its place. */
  lemma {:induction false} FinalReplyIff(events: seq<Event>, finish: Finish)
    ensures var rs, n := Replies(START, events, finish), Stop(events, 0);
            && n <= |rs| && (forall i | 0 <= i < n :: Answers(rs[i], events[i]))
            && Tail(events, finish, n, rs[n..])
  {
    hide InPlace, LetsThrough, Replies, Tail, Closing, Ending, Answers, Answer;
    var rs, n := Replies(START, events, finish), Stop(events, 0);
    RepliesFrom(events, 0, finish);
    assert StateAt(events, 0) == START && events[0..] == events && rs[n - 0..] == rs[n..];
    forall i | 0 <= i < n ensures Answers(rs[i], events[i]) {
      FineAnswers(events, i);
      assert rs[i - 0] == Answer(events[i]);
    }
    if n < |events| { StoppedTail(events, finish, n); } else { EndedTail(events, finish); }
  }

  lemma {:induction false} NoOddMessage(events: seq<Event>, i: nat)
    requires i < |events|
    ensures InPlace(events, i) ==> !events[i].Message?
  {}

  lemma {:induction false} CompleteState(events: seq<Event>)
    requires AllFine(events, |events|)
    ensures var st := StateAt(events, |events|); st.requestChecked && st.responseChecked <==> Complete(events)
  {
    if events != [] { assert Fine(events, 0); }
  }
}
