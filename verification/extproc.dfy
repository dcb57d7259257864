/** The ExtProc stream: one reply per message of the proxy, one final answer at most. */
module ExtProc {
  import opened Wrappers
  import opened Sequences

  datatype Action = Allow | Redact | Block | ApprovalRequired | Unknown

  /** How the work on one message ends: a verdict, InspectionError, the deadline, cancellation,
      or any other exception. */
  datatype Outcome = Verdict(action: Action) | Refused | TimedOut | Cancelled | Crashed

  /** A message of the proxy with the outcome that inspecting it will have.  end is
      end_of_stream.  Message stands for messages that are never acceptable: observability mode
      and kinds that the protocol does not define. */
  datatype Event =
    | RequestHeaders(end: bool, outcome: Outcome)
    | RequestBody(outcome: Outcome)
    | ResponseHeaders(end: bool, outcome: Outcome)
    | ResponseBody(outcome: Outcome)
    | Message

  datatype Code = Incomplete | Deadline | Internal

  datatype Reply =
    | ForRequestHeaders | ForRequestBody | ForResponseHeaders | ForResponseBody
    | Immediate | Abort(code: Code)

  /** How the incoming side ends after its last message. */
  datatype Finish = EndOfStream | Elapsed | Cancellation | Failure

  datatype State = State(requestSeen: bool, requestChecked: bool, responseSeen: bool, responseChecked: bool)

  const START := State(false, false, false, false)

  predicate Lets(action: Action) { action == Allow || action == Redact }

  predicate Passes(o: Outcome) { o.Verdict? && Lets(o.action) }

  /** The reply to an outcome that does not pass. */
  function Ending(o: Outcome): seq<Reply> {
    match o
    case Verdict(_) => [Immediate]
    case Refused => [Immediate]
    case TimedOut => [Abort(Deadline)]
    case Cancelled => []
    case Crashed => [Abort(Internal)]
  }

  /** Is this message legal now? */
  predicate InSequence(st: State, e: Event) {
    match e
    case RequestHeaders(_, _) => !st.requestSeen
    case RequestBody(_) => st.requestSeen && !st.requestChecked
    case ResponseHeaders(_, _) => st.requestChecked && !st.responseSeen
    case ResponseBody(_) => st.responseSeen && !st.responseChecked
    case Message => false
  }

  /** Must the outcome of this message be a passing verdict?  Request headers that announce a body
      and metadata without findings pass by not being refused. */
  predicate Proceeds(e: Event) {
    match e
    case RequestHeaders(end, o) => if end then Passes(o) else o.Verdict?
    case RequestBody(o) => Passes(o)
    case ResponseHeaders(_, o) => o.Verdict?
    case ResponseBody(o) => Passes(o)
    case Message => false
  }

  function After(st: State, e: Event): State {
    match e
    case RequestHeaders(end, _) => st.(requestSeen := true, requestChecked := end)
    case RequestBody(_) => st.(requestChecked := true)
    case ResponseHeaders(end, _) => st.(responseSeen := true, responseChecked := end)
    case ResponseBody(_) => st.(responseChecked := true)
    case Message => st
  }

  function Answer(e: Event): Reply {
    match e
    case RequestHeaders(_, _) => ForRequestHeaders
    case RequestBody(_) => ForRequestBody
    case ResponseHeaders(_, _) => ForResponseHeaders
    case ResponseBody(_) => ForResponseBody
    case Message => Immediate
  }

  function Closing(st: State, finish: Finish): seq<Reply> {
    match finish
    case EndOfStream => if st.requestChecked && st.responseChecked then [] else [Abort(Incomplete)]
    case Elapsed => [Abort(Deadline)]
    case Cancellation => []
    case Failure => [Abort(Internal)]
  }

  /** Everything the stream answers. */
  function Replies(st: State, events: seq<Event>, finish: Finish): seq<Reply>
    decreases |events|
  {
    if events == [] then Closing(st, finish)
    else if !InSequence(st, events[0]) then [Immediate]
    else if !Proceeds(events[0]) then Ending(events[0].outcome)
    else [Answer(events[0])] + Replies(After(st, events[0]), events[1..], finish)
  }

  lemma {:induction false} NextReply(sent: seq<Reply>, st: State, events: seq<Event>, i: nat, finish: Finish)
    requires i < |events|
    ensures sent + Replies(st, events[i..], finish) ==
            if !InSequence(st, events[i]) then sent + [Immediate]
            else if !Proceeds(events[i]) then sent + Ending(events[i].outcome)
            else sent + [Answer(events[i])] + Replies(After(st, events[i]), events[i + 1..], finish)
  {
    assert events[i..][0] == events[i] && events[i..][1..] == events[i + 1..];
    Associate(sent, [Answer(events[i])], Replies(After(st, events[i]), events[i + 1..], finish));
  }

  method Process(events: seq<Event>, finish: Finish) returns (replies: seq<Reply>)
    ensures replies == Replies(START, events, finish)
  {
    var requestSeen, requestChecked, responseSeen, responseChecked := false, false, false, false;
    replies := [];
    for i := 0 to |events|
      invariant Replies(START, events, finish) ==
                replies +
                Replies(State(requestSeen, requestChecked, responseSeen, responseChecked), events[i..], finish)
    {
      var e := events[i];
      NextReply(replies, State(requestSeen, requestChecked, responseSeen, responseChecked), events, i, finish);
      var answer: Reply;
      match e {
        case RequestHeaders(end, o) =>
          if requestSeen { return replies + [Immediate]; }
          if !o.Verdict? || (end && !Lets(o.action)) { return replies + Ending(o); }
          requestSeen, requestChecked, answer := true, end, ForRequestHeaders;
        case RequestBody(o) =>
          if !requestSeen || requestChecked { return replies + [Immediate]; }
          if !o.Verdict? || !Lets(o.action) { return replies + Ending(o); }
          requestChecked, answer := true, ForRequestBody;
        case ResponseHeaders(end, o) =>
          if !requestChecked || responseSeen { return replies + [Immediate]; }
          if !o.Verdict? { return replies + Ending(o); }
          responseSeen, responseChecked, answer := true, end, ForResponseHeaders;
        case ResponseBody(o) =>
          if !responseSeen || responseChecked { return replies + [Immediate]; }
          if !o.Verdict? || !Lets(o.action) { return replies + Ending(o); }
          responseChecked, answer := true, ForResponseBody;
        case Message => return replies + [Immediate];
      }
      replies := replies + [answer];
    }
    replies := replies + Closing(State(requestSeen, requestChecked, responseSeen, responseChecked), finish);
  }

  // ---- What a stream may answer ----

  predicate IsFinal(r: Reply) { r.Immediate? || r.Abort? }

  function Rank(r: Reply): nat {
    match r
    case ForRequestHeaders => 0
    case ForRequestBody => 1
    case ForResponseHeaders => 2
    case ForResponseBody => 3
    case _ => 4
  }

  /** Request headers, perhaps the request body, response headers, perhaps the response body,
      perhaps one final answer: each at most once, in this order, and none without the one it
      belongs to. */
  predicate Orderly(rs: seq<Reply>) {
    && Increasing(rs)
    && Follows(rs, ForRequestBody, ForRequestHeaders, false)
    && Follows(rs, ForResponseHeaders, ForRequestHeaders, false)
    && Follows(rs, ForResponseBody, ForResponseHeaders, false)
  }

  predicate Increasing(rs: seq<Reply>) { forall i, j | 0 <= i < j < |rs| :: Rank(rs[i]) < Rank(rs[j]) }

  /** r comes only after the reply it needs, unless that was given before. */
  predicate Follows(rs: seq<Reply>, r: Reply, needed: Reply, given: bool) {
    forall i | 0 <= i < |rs| && rs[i] == r :: given || needed in rs[..i]
  }

  /** The same from a state in which some replies were given already. */
  predicate OrderlyFrom(st: State, rs: seq<Reply>) {
    && Increasing(rs)
    && (forall i | 0 <= i < |rs| :: Rank(rs[i]) >= Reached(st))
    && Follows(rs, ForRequestBody, ForRequestHeaders, st.requestSeen)
    && Follows(rs, ForResponseHeaders, ForRequestHeaders, st.requestSeen)
    && Follows(rs, ForResponseBody, ForResponseHeaders, st.responseSeen)
  }

  predicate Reachable(st: State) {
    && (st.requestChecked ==> st.requestSeen) && (st.responseSeen ==> st.requestChecked)
    && (st.responseChecked ==> st.responseSeen)
  }

  /** The least rank that the next reply can have. */
  function Reached(st: State): nat {
    if st.responseChecked then 4
    else if st.responseSeen then 3
    else if st.requestChecked then 2
    else if st.requestSeen then 1
    else 0
  }

  lemma {:induction false} OneReply(st: State, r: Reply)
    requires IsFinal(r)
    ensures OrderlyFrom(st, [r])
  {}

  lemma {:induction false} IncreasingAfter(head: Reply, rest: seq<Reply>)
    requires Increasing(rest) && forall i | 0 <= i < |rest| :: Rank(rest[i]) > Rank(head)
    ensures Increasing([head] + rest)
  {
    var all := [head] + rest;
    forall i, j | 0 <= i < j < |all| ensures Rank(all[i]) < Rank(all[j]) {
      assert all[j] == rest[j - 1];
      if i > 0 { assert all[i] == rest[i - 1]; }
    }
  }

  lemma {:induction false} FollowsAfter(head: Reply, rest: seq<Reply>, r: Reply, needed: Reply, given: bool)
    requires Follows(rest, r, needed, given || head == needed) && (head == r ==> given)
    ensures Follows([head] + rest, r, needed, given)
  {
    var all := [head] + rest;
    forall i | 0 <= i < |all| && all[i] == r ensures given || needed in all[..i] {
      if i > 0 {
        assert all[i] == rest[i - 1];
        assert all[..i] == [head] + rest[..i - 1];
      }
    }
  }

  lemma {:induction false} ReplyThenRest(st: State, e: Event, rest: seq<Reply>)
    requires Reachable(st) && InSequence(st, e) && Proceeds(e) && OrderlyFrom(After(st, e), rest)
    ensures OrderlyFrom(st, [Answer(e)] + rest)
  {
    hide Increasing, Follows;
    IncreasingAfter(Answer(e), rest);
    FollowsAfter(Answer(e), rest, ForRequestBody, ForRequestHeaders, st.requestSeen);
    FollowsAfter(Answer(e), rest, ForResponseHeaders, ForRequestHeaders, st.requestSeen);
    FollowsAfter(Answer(e), rest, ForResponseBody, ForResponseHeaders, st.responseSeen);
  }

  lemma {:induction false} RepliesAreOrderly(st: State, events: seq<Event>, finish: Finish)
    requires Reachable(st)
    ensures OrderlyFrom(st, Replies(st, events, finish))
    decreases |events|
  {
    if events == [] {
      if Closing(st, finish) != [] { OneReply(st, Closing(st, finish)[0]); }
    } else if !InSequence(st, events[0]) {
      OneReply(st, Immediate);
    } else if !Proceeds(events[0]) {
      if Ending(events[0].outcome) != [] { OneReply(st, Ending(events[0].outcome)[0]); }
    } else {
      RepliesAreOrderly(After(st, events[0]), events[1..], finish);
      ReplyThenRest(st, events[0], Replies(After(st, events[0]), events[1..], finish));
    }
  }

  /** Every reply but a final one answers the message at its own place. */
  predicate AnswersInPlace(events: seq<Event>, rs: seq<Reply>) {
    && |rs| <= |events| + 1
    && forall i | 0 <= i < |rs| && !IsFinal(rs[i]) ::
         i < |events| && rs[i] == Answer(events[i]) && Proceeds(events[i])
  }

  /** A message that settles the request with a verdict that lets it through. */
  predicate SettlesRequest(e: Event) {
    (e.RequestHeaders? && e.end && Passes(e.outcome)) || (e.RequestBody? && Passes(e.outcome))
  }

  /** A message that settles the response: its headers when there is no body, else its body. */
  predicate SettlesResponse(e: Event) {
    (e.ResponseHeaders? && e.end && e.outcome.Verdict?) || (e.ResponseBody? && Passes(e.outcome))
  }

  lemma {:induction false} RepliesAnswer(st: State, events: seq<Event>, finish: Finish)
    ensures AnswersInPlace(events, Replies(st, events, finish))
    decreases |events|
  {
    if events != [] && InSequence(st, events[0]) && Proceeds(events[0]) {
      RepliesAnswer(After(st, events[0]), events[1..], finish);
      var rest := Replies(After(st, events[0]), events[1..], finish);
      forall i | 0 < i <= |rest| && !IsFinal(rest[i - 1])
        ensures i < |events| && rest[i - 1] == Answer(events[i]) && Proceeds(events[i])
      {
        assert events[1..][i - 1] == events[i];
      }
    }
  }

  ghost predicate SettledBefore(events: seq<Event>, n: nat) {
    exists k | 0 <= k < n && k < |events| :: SettlesRequest(events[k])
  }

  lemma {:induction false} ResponseFollowsVerdict(st: State, events: seq<Event>, finish: Finish, i: nat)
    requires var rs := Replies(st, events, finish);
             i < |rs| && (rs[i] == ForResponseHeaders || rs[i] == ForResponseBody)
    requires Reachable(st)
    ensures st.requestChecked || SettledBefore(events, i)
    decreases |events|
  {
    if events != [] && InSequence(st, events[0]) && Proceeds(events[0]) &&
       !st.requestChecked && !SettlesRequest(events[0])
    {
      ResponseFollowsVerdict(After(st, events[0]), events[1..], finish, i - 1);
      var k :| 0 <= k < i - 1 && k < |events[1..]| && SettlesRequest(events[1..][k]);
      assert events[k + 1] == events[1..][k];
    }
  }

  ghost predicate AnySettlesRequest(events: seq<Event>) { exists k | 0 <= k < |events| :: SettlesRequest(events[k]) }

  ghost predicate AnySettlesResponse(events: seq<Event>) { exists k | 0 <= k < |events| :: SettlesResponse(events[k]) }

  /** Are all messages legal, in their order, with outcomes that let the stream go on? */
  predicate AllProceed(st: State, events: seq<Event>)
    decreases |events|
  {
    events == [] || (InSequence(st, events[0]) && Proceeds(events[0]) && AllProceed(After(st, events[0]), events[1..]))
  }

  lemma {:induction false} SettlesHead(events: seq<Event>)
    requires events != []
    ensures AnySettlesRequest(events) <==> SettlesRequest(events[0]) || AnySettlesRequest(events[1..])
    ensures AnySettlesResponse(events) <==> SettlesResponse(events[0]) || AnySettlesResponse(events[1..])
  {
    assert forall k | 0 < k < |events| :: events[k] == events[1..][k - 1];
    assert forall k | 0 <= k < |events[1..]| :: events[1..][k] == events[k + 1];
  }

  lemma {:induction false} CleanFrom(st: State, events: seq<Event>)
    requires Reachable(st)
    ensures (forall r | r in Replies(st, events, EndOfStream) :: !IsFinal(r)) && NotCancelled(st, events) <==>
            && AllProceed(st, events)
            && (st.requestChecked || AnySettlesRequest(events)) && (st.responseChecked || AnySettlesResponse(events))
    decreases |events|
  {
    if events == [] {
      var rs := Replies(st, events, EndOfStream);
      assert rs == Closing(st, EndOfStream) && !AnySettlesRequest(events) && !AnySettlesResponse(events);
      assert rs != [] ==> rs[0] in rs && IsFinal(rs[0]);
    } else if !InSequence(st, events[0]) {
      assert Immediate in Replies(st, events, EndOfStream);
    } else if !Proceeds(events[0]) {
      var e := Ending(events[0].outcome);
      assert e != [] ==> e[0] in Replies(st, events, EndOfStream) && IsFinal(e[0]);
    } else {
      var next := After(st, events[0]);
      CleanFrom(next, events[1..]);
      SettlesHead(events);
      var rest := Replies(next, events[1..], EndOfStream);
      assert forall r :: r in [Answer(events[0])] + rest <==> r == Answer(events[0]) || r in rest;
    }
  }

  /** No message was being worked on when the stream was cancelled. */
  predicate NotCancelled(st: State, events: seq<Event>)
    decreases |events|
  {
    if events == [] || !InSequence(st, events[0]) then true
    else if !Proceeds(events[0]) then !events[0].outcome.Cancelled?
    else NotCancelled(After(st, events[0]), events[1..])
  }

  // ---- Main results ----

  /** For every sequence of messages and outcomes the replies come in the legal order, each
      answers its own message, the first of a response phase comes only after a verdict that let
      the request through, and a final answer is the last reply. */
  lemma {:induction false} StreamIsSafe(events: seq<Event>, finish: Finish)
    ensures var rs := Replies(START, events, finish);
            && Orderly(rs) && AnswersInPlace(events, rs)
            && (forall i | 0 <= i < |rs| && (rs[i] == ForResponseHeaders || rs[i] == ForResponseBody) ::
                  SettledBefore(events, i))
            && (forall i | 0 <= i < |rs| && IsFinal(rs[i]) :: i == |rs| - 1)
  {
    var rs := Replies(START, events, finish);
    RepliesAreOrderly(START, events, finish);
    RepliesAnswer(START, events, finish);
    forall i | 0 <= i < |rs| && (rs[i] == ForResponseHeaders || rs[i] == ForResponseBody)
      ensures SettledBefore(events, i)
    {
      ResponseFollowsVerdict(START, events, finish, i);
    }
    forall i | 0 <= i < |rs| - 1 ensures !IsFinal(rs[i]) {
      assert Rank(rs[i]) < Rank(rs[|rs| - 1]);
    }
  }

  /** A stream that is not cancelled ends without a final answer exactly when every message was
      legal and let it go on, the request was settled and so was the response.  A clean close, to
      which the proxy reacts by forwarding, therefore always means that both were checked. */
  lemma {:induction false} CleanEndIff(events: seq<Event>)
    ensures (forall r | r in Replies(START, events, EndOfStream) :: !IsFinal(r)) && NotCancelled(START, events) <==>
            AllProceed(START, events) && AnySettlesRequest(events) && AnySettlesResponse(events)
  {
    CleanFrom(START, events);
  }
}
