/** One evidence record per stream, stored before the final reply is handed on. */
module Evidence {
  import opened Wrappers
  import opened ExtProc

  datatype Mode = Mirror | Inline

  /** How one append to the spool ends: stored, failed with nothing written, or failed with the
      line already in the file (the sync reports an error). */
  datatype Storage = Stores | FailsEmpty | FailsWritten

  datatype Record = Record(action: Action, completed: bool, enforced: bool)

  // ---- What the engine's verdicts become ----

  /** The verdicts that the inspection has noted. */
  datatype Known = Known(request: Option<Action>, response: Option<Action>)

  const NOTHING := Known(None, None)

  /** What one message adds: a verdict on the request or on the response body; a refusal and a
      message out of sequence are noted as a block of the request. */
  function Learn(st: State, known: Known, e: Event): Known {
    if !InSequence(st, e) then known.(request := Some(Block))
    else
      match e
      case Message => known
      case ResponseBody(Verdict(action)) => known.(response := Some(action))
      case RequestBody(Verdict(action)) => known.(request := Some(action))
      case RequestHeaders(true, Verdict(action)) => known.(request := Some(action))
      case _ => if e.outcome == Refused then known.(request := Some(Block)) else known
  }

  function StateAfter(events: seq<Event>): State {
    if events == [] then START else After(StateAfter(events[..|events| - 1]), events[|events| - 1])
  }

  function KnownAfter(events: seq<Event>): Known {
    if events == [] then NOTHING
    else
      var before, last := events[..|events| - 1], events[|events| - 1];
      Learn(StateAfter(before), KnownAfter(before), last)
  }

  /** response_has_no_body after these messages. */
  predicate NoBody(events: seq<Event>) {
    events != [] &&
      var last := events[|events| - 1];
      if last.ResponseHeaders? then last.end else NoBody(events[..|events| - 1])
  }

  lemma {:induction false} OneMoreMessage(events: seq<Event>, i: nat)
    requires i < |events|
    ensures StateAfter(events[..i + 1]) == After(StateAfter(events[..i]), events[i])
    ensures KnownAfter(events[..i + 1]) == Learn(StateAfter(events[..i]), KnownAfter(events[..i]), events[i])
    ensures NoBody(events[..i + 1]) == if events[i].ResponseHeaders? then events[i].end else NoBody(events[..i])
  {
    assert events[..i + 1][..i] == events[..i];
  }

  /** In mirror mode the protocol is told allow, whatever the verdict was. */
  function Shown(mode: Mode, e: Event): Event {
    match e
    case RequestHeaders(true, Verdict(_)) => if mode == Mirror then RequestHeaders(true, Verdict(Allow)) else e
    case RequestBody(Verdict(_)) => if mode == Mirror then RequestBody(Verdict(Allow)) else e
    case ResponseBody(Verdict(_)) => if mode == Mirror then ResponseBody(Verdict(Allow)) else e
    case _ => e
  }

  function ShownAll(mode: Mode, events: seq<Event>): seq<Event> {
    seq(|events|, i requires 0 <= i < |events| => Shown(mode, events[i]))
  }

  // ---- The record ----

  /** The action that goes on record. */
  function Judged(known: Known, completed: bool): Action {
    var base :=
      if known.response.Some? && known.response.value != Allow then known.response.value
      else if known.request.Some? then known.request.value
      else Unknown;
    if !completed && Lets(base) then Unknown else base
  }

  function RecordOf(mode: Mode, known: Known, completed: bool): Record {
    Record(Judged(known, completed), completed, completed && mode == Inline)
  }

  function Lines(r: Record, storage: Storage): seq<Record> { if storage == FailsEmpty then [] else [r] }

  /** record_event lets an error through only in inline mode. */
  predicate Raises(mode: Mode, storage: Storage) { mode == Inline && storage != Stores }

  // ---- The stream ----

  /** Where a caller that goes away meets the stream: before its next message is judged, after the
      verdict on it is noted, or while the evidence for its reply is being stored. */
  datatype Exit = Waiting | Noted | Storing

  /** What can happen to one stream from outside: the messages with the engine's outcomes, how the
      incoming side ends, after how many replies the caller goes away and where that meets the
      stream.  first and second are the storage attempts. */
  datatype Fate = Fate(events: seq<Event>, finish: Finish, stop: nat, exit: Exit, first: Storage, second: Storage)

  /** The replies that the console gets to see: an abort is raised instead. */
  function Yielded(replies: seq<Reply>): seq<Reply> {
    if replies != [] && replies[|replies| - 1].Abort? then replies[..|replies| - 1] else replies
  }

  function Sent(mode: Mode, f: Fate): seq<Reply> { Yielded(Replies(START, ShownAll(mode, f.events), f.finish)) }

  /** How many messages are read before the stream ends. */
  function Consumed(st: State, events: seq<Event>): (n: nat)
    ensures n <= |events|
    decreases |events|
  {
    if events == [] then 0
    else if !InSequence(st, events[0]) || !Proceeds(events[0]) then 1
    else 1 + Consumed(After(st, events[0]), events[1..])
  }

  /** Is this the last reply the proxy waits for?  read are the messages up to the one it answers. */
  predicate IsTerminal(r: Reply, read: seq<Event>) {
    r == Immediate || r == ForResponseBody || (r == ForResponseHeaders && NoBody(read))
  }

  /** The place of the first terminal reply from place i on. */
  function FirstTerminal(replies: seq<Reply>, events: seq<Event>, i: nat): (t: nat)
    requires i <= |replies| <= |events|
    ensures i <= t <= |replies|
    ensures t < |replies| ==> IsTerminal(replies[t], events[..t + 1])
    ensures forall j | i <= j < t :: !IsTerminal(replies[j], events[..j + 1])
    decreases |replies| - i
  {
    if i == |replies| || IsTerminal(replies[i], events[..i + 1]) then i else FirstTerminal(replies, events, i + 1)
  }

  lemma {:induction false} SentWithin(mode: Mode, f: Fate)
    ensures var n := Consumed(START, ShownAll(mode, f.events));
            |Sent(mode, f)| <= n <= |Sent(mode, f)| + 1 && n <= |f.events|
  {
    RepliesWithin(START, ShownAll(mode, f.events), f.finish);
  }

  lemma {:induction false} RepliesWithin(st: State, events: seq<Event>, finish: Finish)
    ensures |Yielded(Replies(st, events, finish))| <= Consumed(st, events) <= |Yielded(Replies(st, events, finish))| + 1
    decreases |events|
  {
    if events != [] && InSequence(st, events[0]) && Proceeds(events[0]) {
      var rest := Replies(After(st, events[0]), events[1..], finish);
      RepliesWithin(After(st, events[0]), events[1..], finish);
      assert rest != [] ==> ([Answer(events[0])] + rest)[|rest|] == rest[|rest| - 1];
    }
  }

  function Terminal(mode: Mode, f: Fate): (t: nat)
    ensures t <= |Sent(mode, f)| <= |f.events|
  {
    SentWithin(mode, f);
    FirstTerminal(Sent(mode, f), f.events, 0)
  }

  /** Does the stream get as far as storing evidence for a terminal reply? */
  predicate Completes(mode: Mode, f: Fate) {
    var t := Terminal(mode, f);
    t < |Sent(mode, f)| && (t < f.stop || (t == f.stop && f.exit.Storing?))
  }

  /** How many messages were read and judged when the record was made. */
  function Handled(mode: Mode, f: Fate): (n: nat)
    ensures n <= |f.events|
  {
    SentWithin(mode, f);
    if Completes(mode, f) then Terminal(mode, f) + 1
    else if f.stop < |Sent(mode, f)| then f.stop + if f.exit.Waiting? then 0 else 1
    else Consumed(START, ShownAll(mode, f.events))
  }

  function KnownAtRecord(mode: Mode, f: Fate): Known { KnownAfter(f.events[..Handled(mode, f)]) }

  datatype Trace = Trace(handed: seq<Reply>, completed: bool, finished: bool, log: seq<Record>)

  function HandedUpTo(mode: Mode, f: Fate): seq<Reply> {
    if f.stop < |Sent(mode, f)| then Sent(mode, f)[..f.stop] else Sent(mode, f)
  }

  /** The stream as a whole. */
  function Served(mode: Mode, f: Fate): Trace {
    var r := RecordOf(mode, KnownAtRecord(mode, f), Completes(mode, f));
    if Completes(mode, f) && Raises(mode, f.first) then
      Trace(Sent(mode, f)[..Terminal(mode, f)], true, !Raises(mode, f.second), Lines(r, f.first) + Lines(r, f.second))
    else
      Trace(HandedUpTo(mode, f), Completes(mode, f), Completes(mode, f) || !Raises(mode, f.first), Lines(r, f.first))
  }

  class StreamInspection {
    const mode: Mode
    var request: Option<Action>
    var response: Option<Action>
    var completed: bool
    var finished: bool
    var log: seq<Record>

    constructor (mode: Mode)
      ensures this.mode == mode && Notes() == NOTHING && !completed && !finished && log == []
    {
      this.mode, request, response, completed, finished, log := mode, None, None, false, false, [];
    }

    function Notes(): Known
      reads this
    {
      Known(request, response)
    }

    /** inspect_request, inspect_response and record, for one message. */
    method Note(st: State, e: Event)
      modifies this`request, this`response
      ensures Notes() == Learn(st, old(Notes()), e)
    {
      if !InSequence(st, e) {
        request := Some(Block);
        return;
      }
      match e {
        case RequestHeaders(end, o) =>
          if end && o.Verdict? { request := Some(o.action); } else if o.Refused? { request := Some(Block); }
        case RequestBody(o) =>
          if o.Verdict? { request := Some(o.action); } else if o.Refused? { request := Some(Block); }
        case ResponseHeaders(_, o) =>
          if o.Refused? { request := Some(Block); }
        case ResponseBody(o) =>
          if o.Verdict? { response := Some(o.action); } else if o.Refused? { request := Some(Block); }
        case Message =>
      }
    }

    method Persist(storage: Storage) returns (raised: bool)
      modifies this`log
      ensures log == old(log) + Lines(RecordOf(mode, Notes(), completed), storage)
      ensures raised == Raises(mode, storage)
    {
      var record := Record(Judged(Notes(), completed), completed, completed && mode == Inline);
      if storage != FailsEmpty {
        log := log + [record];
      }
      return storage != Stores && mode != Mirror;
    }

    /** Under the lock: once finished, nothing more is stored; an error leaves it unfinished. */
    method Finish(storage: Storage) returns (raised: bool)
      modifies this`log, this`finished
      ensures old(finished) ==> !raised && finished && log == old(log)
      ensures !old(finished) ==>
                && log == old(log) + Lines(RecordOf(mode, Notes(), completed), storage)
                && raised == Raises(mode, storage) && finished == !raised
    {
      if finished { return false; }
      raised := Persist(storage);
      finished := !raised;
    }

    /** The console's Process: hand on each reply, but store the evidence before a terminal one;
        whatever happens, try once more at the end. */
    method Serve(f: Fate) returns (handed: seq<Reply>)
      requires Notes() == NOTHING && !completed && !finished && log == []
      modifies this`request, this`response, this`completed, this`finished, this`log
      ensures Trace(handed, completed, finished, log) == Served(mode, f)
    {
      hide Replies, Yielded, Learn, InSequence, After, Judged, NoBody, KnownAfter, StateAfter, Consumed;
      var shown := ShownAll(mode, f.events);
      var all := Process(shown, f.finish);
      var replies := Yielded(all);
      SentWithin(mode, f);
      NothingRead(f.events);
      handed := [];
      var st, noBody, i, leaves := START, false, 0, false;
      ghost var t, done := Terminal(mode, f), RecordOf(mode, KnownAfter(f.events[..Handled(mode, f)]), true);
      while i < |replies| && !leaves
        invariant 0 <= i <= |replies| && (leaves ==> i < |replies| && (i == f.stop || i == t))
        invariant !leaves ==> i <= f.stop && handed == replies[..i] && completed == finished == (t < i)
        invariant !leaves ==> st == StateAfter(f.events[..i]) && Notes() == KnownAfter(f.events[..i])
        invariant !leaves ==> noBody == NoBody(f.events[..i])
        invariant !leaves && t < i ==> !Raises(mode, f.first)
        invariant leaves ==> completed == Completes(mode, f) && finished == (completed && !Raises(mode, f.first))
        invariant leaves ==> finished || Notes() == KnownAtRecord(mode, f)
        invariant leaves ==> handed == if completed && !finished then replies[..t] else HandedUpTo(mode, f)
        invariant log == if completed then Lines(done, f.first) else []
        decreases |replies| - i, !leaves
      {
        OneMoreMessage(f.events, i);
        leaves := i == f.stop;
        if !leaves || !f.exit.Waiting? {
          Note(st, f.events[i]);
          st := After(st, f.events[i]);
          if f.events[i].ResponseHeaders? { noBody := f.events[i].end; }
          var terminal := replies[i] == Immediate || replies[i] == ForResponseBody ||
                          (replies[i] == ForResponseHeaders && noBody);
          if i <= t { FirstIsTerminal(mode, f, i); }
          if terminal && !(leaves && f.exit.Noted?) {
            completed := true;
            var raised := Finish(f.first);
            leaves := leaves || raised;
          }
        }
        if !leaves {
          handed := handed + [replies[i]];
          i := i + 1;
        }
      }
      assert replies[..|replies|] == replies;
      if !leaves && i < Consumed(START, shown) {
        OneMoreMessage(f.events, i);
        Note(st, f.events[i]);
      }
      var _ := Finish(if completed then f.second else f.first);
    }
  }

  lemma {:induction false} NothingRead(events: seq<Event>)
    ensures StateAfter(events[..0]) == START && KnownAfter(events[..0]) == NOTHING && !NoBody(events[..0])
  {}

  lemma {:induction false} FirstIsTerminal(mode: Mode, f: Fate, i: nat)
    requires i < |Sent(mode, f)| && i <= Terminal(mode, f)
    ensures i < |f.events| && (IsTerminal(Sent(mode, f)[i], f.events[..i + 1]) <==> i == Terminal(mode, f))
  {
    SentWithin(mode, f);
  }

  // ---- Main results ----

  /** Was a final reply handed on? */
  ghost predicate HandedFinal(mode: Mode, f: Fate, i: nat) {
    i < |Served(mode, f).handed| && i < |f.events| && IsTerminal(Served(mode, f).handed[i], f.events[..i + 1])
  }

  /** No terminal reply is handed on before its evidence: the stream is then recorded as completed
      and finished, and in inline mode exactly one record of it is stored. */
  lemma {:induction false} EvidenceBeforeFinalReply(mode: Mode, f: Fate, i: nat)
    requires HandedFinal(mode, f, i)
    ensures var o := Served(mode, f);
            && o.completed && o.finished
            && o.log == Lines(RecordOf(mode, KnownAfter(f.events[..Terminal(mode, f) + 1]), true), f.first)
            && (mode == Inline ==> f.first == Stores && |o.log| == 1)
  {
    hide IsTerminal, Judged, KnownAfter, Sent;
    assert Served(mode, f).handed[i] == Sent(mode, f)[i];
  }

  /** How many records a stream leaves.  At most one is what the lock is meant to ensure; a second
      one appears exactly when, in inline mode, the append for a terminal reply reports an error
      after its line is in the file, and the last attempt writes again. */
  lemma {:induction false} RecordCount(mode: Mode, f: Fate)
    ensures var n := |Served(mode, f).log|;
            && n <= 2
            && (n == 2 <==> mode == Inline && Completes(mode, f) && f.first == FailsWritten && f.second != FailsEmpty)
            && (n == 0 <==> f.first == FailsEmpty && (mode == Inline && Completes(mode, f) ==> f.second == FailsEmpty))
            && (f.first == Stores ==> n == 1)
            && (forall r | r in Served(mode, f).log :: r.completed == Completes(mode, f))
  {}

  predicate JudgesRequest(e: Event, action: Action) {
    (e == RequestHeaders(true, Verdict(action))) || e == RequestBody(Verdict(action))
  }

  lemma {:induction false} KnownIsJudged(events: seq<Event>)
    ensures var known := KnownAfter(events);
            && (known.request.Some? && known.request.value != Block ==>
                  exists e :: e in events && JudgesRequest(e, known.request.value))
            && (known.response.Some? ==> ResponseBody(Verdict(known.response.value)) in events)
  {
    if events != [] {
      var before, last := events[..|events| - 1], events[|events| - 1];
      KnownIsJudged(before);
      assert events == before + [last];
      assert last in events && forall e | e in before :: e in events;
    }
  }

  /** A lenient record means what it says: the stream completed, and among the messages it had read
      is one that the engine judged so.  An allow speaks of both directions. */
  lemma {:induction false} LenientRecordIsEarned(mode: Mode, f: Fate, r: Record)
    requires r in Served(mode, f).log && Lets(r.action)
    ensures Completes(mode, f) && r.completed
    ensures var read := f.events[..Terminal(mode, f) + 1];
            && (r.action == Allow ==> exists e :: e in read && JudgesRequest(e, Allow))
            && (r.action == Allow ==>
                  var response := KnownAfter(read).response; response.None? || response == Some(Allow))
            && (r.action == Redact ==>
                  (exists e :: e in read && JudgesRequest(e, Redact)) || ResponseBody(Verdict(Redact)) in read)
  {
    hide KnownAfter, Sent;
    KnownIsJudged(f.events[..Terminal(mode, f) + 1]);
  }

  lemma {:induction false} ShownInline(events: seq<Event>)
    ensures ShownAll(Inline, events) == events
  {}

  /** For a whole inline stream: when the proxy gets an immediate reply, a response-body reply or
      the reply to response headers without a body, then its completed evidence was stored before;
      and a reply of the response phase came only after a verdict that let the request through. */
  lemma {:induction false} ServedStreamHasEvidence(f: Fate, i: nat)
    requires HandedFinal(Inline, f, i)
    ensures Served(Inline, f).log == [RecordOf(Inline, KnownAfter(f.events[..Terminal(Inline, f) + 1]), true)]
    ensures match Served(Inline, f).handed[i]
            case ForResponseBody => f.events[i].ResponseBody? && SettledBefore(f.events, i)
            case ForResponseHeaders => f.events[i].ResponseHeaders? && f.events[i].end && SettledBefore(f.events, i)
            case reply => reply == Immediate
  {
    hide KnownAfter, Replies, Orderly;
    EvidenceBeforeFinalReply(Inline, f, i);
    ShownInline(f.events);
    StreamIsSafe(f.events, f.finish);
    var all := Replies(START, f.events, f.finish);
    assert Served(Inline, f).handed[i] == all[i];
    OneMoreMessage(f.events, i);
    assert !IsFinal(all[i]) ==> all[i] == Answer(f.events[i]);
  }
}
