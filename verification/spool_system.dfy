/** The whole life of the evidence spool: writers, overlapping ingest calls, failures and crashes. */
module SpoolSystem {
  import opened Sequences
  import opened Wrappers
  import opened Spool
  import opened SpoolWriter
  import opened SpoolDelivery

  /** What SQLite commits in one transaction. */
  datatype Store = Store(cursor: map<Name, Position>, events: seq<(Name, Bytes)>)

  /** pass is the read of the call that holds the state lock, if any; pending has, for each call
      past its commit, the paths it still has to unlink. */
  datatype Sys = Sys(writers: map<Name, Writer>, store: Store, pass: Option<Pass>, pending: seq<PathList>)

  type PathList = seq<(Name, FileName)>

  datatype Step =
    | Append(w: Name, line: Line, stamp: nat, inode: nat, fault: Fault)
    | Read(order: seq<Name>, limit: nat)
    | Commit
    | Abort             // the read or the commit raises: the pass is lost
    | Unlink(k: nat)
    | GiveUp(k: nat)    // an unlink raises: the rest of the list is lost
    | Crash             // of the control plane: the pass and every list are lost

  const INITIAL := Sys(map[], Store(map[], []), None, [])

  function WriterOf(s: Sys, w: Name): Writer { if w in s.writers then s.writers[w] else NEW_WRITER }

  function Directories(s: Sys): map<Name, Directory> { map w | w in s.writers :: s.writers[w].files }

  /** The entries of one writer, in order. */
  function Project<T>(entries: seq<(Name, T)>, w: Name): seq<T> {
    if entries == [] then []
    else if entries[0].0 == w then [entries[0].1] + Project(entries[1..], w)
    else Project(entries[1..], w)
  }

  function Stored(s: Sys, w: Name): seq<Bytes> { Project(s.store.events, w) }

  ghost predicate Distinct(order: seq<Name>) { forall i, j | 0 <= i < j < |order| :: order[i] != order[j] }

  /** The assumptions: a writer's rotation stamps increase, a new file's inode is not in use by the
      same writer, a line is written whole or not at all, and a read pass is not interrupted by a
      rotation or an unlink (a file that vanishes under it makes it raise).  Calls of ingest_events
      overlap in any way that the state lock allows: it covers reading and committing, not the
      unlinks.  Inode numbers may be reused. */
  ghost predicate Enabled(s: Sys, step: Step) {
    match step
    case Append(w, line, stamp, inode, fault) => Sound(WriterOf(s, w), line, stamp, inode, fault)
    case Read(order, limit) => s.pass.None? && Distinct(order)
    case Commit => s.pass.Some?
    case Unlink(k) => k < |s.pending| && s.pending[k] != []
    case _ => true
  }

  function Next(s: Sys, step: Step, maxBytes: nat): Sys {
    match step
    case Append(w, line, stamp, inode, fault) =>
      s.(writers := s.writers[w := AppendStep(WriterOf(s, w), line, maxBytes, stamp, inode, fault)])
    case Read(order, limit) =>
      s.(pass := Some(ReadWriters(Directories(s), order, s.store.cursor, limit)))
    case Commit =>
      if s.pass.None? then s
      else Ingested(s, s.pass.value)
    case Abort => s.(pass := None)
    case Unlink(k) =>
      if k >= |s.pending| || s.pending[k] == [] then s
      else
        var (w, name) := s.pending[k][0];
        s.(writers := s.writers[w := Unlinked(WriterOf(s, w), name)], pending := s.pending[k := s.pending[k][1..]])
    case GiveUp(k) => if k < |s.pending| then s.(pending := s.pending[k := []]) else s
    case Crash => s.(pass := None, pending := [])
  }

  /** The end of ingest_events: nothing to do, or one transaction and then paths to unlink. */
  function CommitPass(store: Store, pass: Pass): (Store, PathList) {
    if pass.events == [] && pass.cursor == store.cursor then (store, [])
    else (Store(pass.cursor, store.events + pass.events), pass.drained)
  }

  function Ingested(s: Sys, pass: Pass): Sys {
    var (store, paths) := CommitPass(s.store, pass);
    s.(store := store, pass := None, pending := s.pending + [paths])
  }

  ghost function Run(steps: seq<Step>, maxBytes: nat): Option<Sys> {
    if steps == [] then Some(INITIAL)
    else
      var before := Run(steps[..|steps| - 1], maxBytes);
      var last := steps[|steps| - 1];
      if before.Some? && Enabled(before.value, last) then Some(Next(before.value, last, maxBytes)) else None
  }

  // ---- The invariant ----

  /** What a cursor and a list of delivered events say of one writer. */
  ghost predicate Consistent(wr: Writer, w: Name, cursor: map<Name, Position>, events: seq<(Name, Bytes)>) {
    var done := Project(events, w);
    && |done| <= |wr.appended|
    && done == wr.appended[..|done|]
    && At(wr, Get(cursor, w), |done|)
  }

  /** What a cursor says of a list of paths to unlink. */
  ghost predicate Disposable(wr: Writer, w: Name, cursor: map<Name, Position>, paths: PathList) {
    Removable(wr, Cut(wr, Get(cursor, w)), Project(paths, w))
  }

  ghost predicate PassOk(wr: Writer, w: Name, store: Store, pass: Pass) {
    && Consistent(wr, w, pass.cursor, store.events + pass.events)
    && Disposable(wr, w, pass.cursor, pass.drained)
    && Cut(wr, Get(store.cursor, w)) <= Cut(wr, Get(pass.cursor, w))
  }

  ghost predicate WriterOk(wr: Writer, w: Name, store: Store, pass: Option<Pass>, pending: seq<PathList>) {
    && Valid(wr)
    && Consistent(wr, w, store.cursor, store.events)
    && (forall k | 0 <= k < |pending| :: Disposable(wr, w, store.cursor, pending[k]))
    && (pass.Some? ==> PassOk(wr, w, store, pass.value))
  }

  ghost predicate InvFor(s: Sys, w: Name) { WriterOk(WriterOf(s, w), w, s.store, s.pass, s.pending) }

  ghost predicate Inv(s: Sys) { forall w: Name :: InvFor(s, w) }

  lemma {:induction false} ProjectConcat<T>(a: seq<(Name, T)>, b: seq<(Name, T)>, w: Name)
    ensures Project(a + b, w) == Project(a, w) + Project(b, w)
  {
    if a == [] {
      assert a + b == b;
    } else {
      assert (a + b)[1..] == a[1..] + b;
      ProjectConcat(a[1..], b, w);
    }
  }

  lemma {:induction false} ProjectTag(w: Name, events: seq<Bytes>, v: Name)
    ensures Project(Tag(w, events), v) == if v == w then events else []
  {
    if events != [] {
      assert Tag(w, events)[1..] == Tag(w, events[1..]);
      ProjectTag(w, events[1..], v);
    }
  }

  lemma {:induction false} ProjectPaths(w: Name, files: seq<File>, v: Name)
    ensures var names := Project(Paths(w, files), v);
            if v == w then |names| == |files| && forall i | 0 <= i < |files| :: names[i] == files[i].name
            else names == []
  {
    if files != [] {
      assert Paths(w, files)[1..] == Paths(w, files[1..]);
      ProjectPaths(w, files[1..], v);
    }
  }

  // ---- Reading ----

  /** What a pass did for one writer whose cursor stood after n events in file from. */
  ghost predicate Passed(wr: Writer, w: Name, n: nat, from: nat, pass: Pass) {
    var events := Project(pass.events, w);
    && n + |events| <= |wr.appended|
    && events == wr.appended[n..n + |events|]
    && At(wr, Get(pass.cursor, w), n + |events|)
    && from <= Cut(wr, Get(pass.cursor, w))
    && Disposable(wr, w, pass.cursor, pass.drained)
  }

  function From(wr: Writer, w: Name, cursor: map<Name, Position>): nat { Cut(wr, Get(cursor, w)) }

  ghost predicate Untouched(w: Name, cursor: map<Name, Position>, pass: Pass) {
    Project(pass.events, w) == [] && Project(pass.drained, w) == [] && Get(pass.cursor, w) == Get(cursor, w)
  }

  ghost predicate CanStart(wr: Writer, w: Name, n: nat, cursor: map<Name, Position>) {
    Valid(wr) && n <= |wr.appended| && At(wr, Get(cursor, w), n)
  }

  /** One writer's share of a pass. */
  lemma {:induction false} HeadPassed(wr: Writer, w: Name, n: nat, cursor: map<Name, Position>, budget: nat)
    requires CanStart(wr, w, n, cursor)
    ensures var (head, left) := ReadOne(wr.files, w, cursor, budget);
            && Passed(wr, w, n, From(wr, w, cursor), head)
            && (head.events == [] <==> !Fits(wr.appended[n..], budget))
            && (head.events == [] ==> left == budget)
  {
    hide Passed, ReadWriter, Start;
    if wr.files == [] {
      NothingPassed(wr, w, n, cursor, Pass([], cursor, []));
    } else {
      var scan := ReadWriter(wr.files, Get(cursor, w), budget);
      WriterDelivers(wr, Get(cursor, w), n, budget);
      ScanPassed(wr, w, n, cursor, scan);
      assert |Tag(w, scan.events)| == |scan.events|;
    }
  }

  lemma {:induction false} ScanPassed(wr: Writer, w: Name, n: nat, cursor: map<Name, Position>, scan: Scan)
    requires Valid(wr) && From(wr, w, cursor) <= scan.index < |wr.files| && scan.drained == wr.files[..scan.index]
    requires n + |scan.events| <= |wr.appended| && scan.events == wr.appended[n..n + |scan.events|]
    requires At(wr, Some(Position(wr.files[scan.index].inode, scan.offset)), n + |scan.events|)
    ensures var moved := cursor[w := Position(wr.files[scan.index].inode, scan.offset)];
            Passed(wr, w, n, From(wr, w, cursor), Pass(Tag(w, scan.events), moved, Paths(w, scan.drained)))
  {
    var position := Position(wr.files[scan.index].inode, scan.offset);
    ProjectTag(w, scan.events, w);
    ProjectPaths(w, scan.drained, w);
    CutOf(wr, scan.index, scan.offset);
    PrefixIsRemovable(wr, scan.index, Project(Paths(w, scan.drained), w));
  }

  lemma {:induction false} CutOf(wr: Writer, j: nat, offset: nat)
    requires Valid(wr) && j < |wr.files|
    ensures Cut(wr, Some(Position(wr.files[j].inode, offset))) == j
  {
    LocateFile(wr.files, wr.lastStamp, j);
  }

  lemma {:induction false} PrefixIsRemovable(wr: Writer, j: nat, names: seq<FileName>)
    requires Valid(wr) && j < |wr.files| && |names| == j
    requires forall i | 0 <= i < j :: names[i] == wr.files[..j][i].name
    ensures Removable(wr, j, names)
  {
    assert Removes(wr, j, names, 0);
  }

  lemma {:induction false} NothingIsRemovable(wr: Writer, limit: nat)
    requires limit <= |wr.files|
    ensures Removable(wr, limit, [])
  {
    assert Removes(wr, limit, [], 0);
  }

  lemma {:induction false} NothingPassed(wr: Writer, w: Name, n: nat, cursor: map<Name, Position>, pass: Pass)
    requires n <= |wr.appended| && At(wr, Get(cursor, w), n) && Untouched(w, cursor, pass)
    ensures Passed(wr, w, n, From(wr, w, cursor), pass)
  {
    NothingIsRemovable(wr, From(wr, w, cursor));
  }

  /** A pass counts for a writer what it says about it. */
  lemma {:induction false} PassedAlike(wr: Writer, w: Name, n: nat, from: nat, pass: Pass, other: Pass)
    requires Passed(wr, w, n, from, pass)
    requires Project(other.events, w) == Project(pass.events, w)
    requires Project(other.drained, w) == Project(pass.drained, w)
    requires Get(other.cursor, w) == Get(pass.cursor, w)
    ensures Passed(wr, w, n, from, other)
  {}

  lemma {:induction false} PassedThenUntouched(wr: Writer, w: Name, n: nat, from: nat, head: Pass, rest: Pass)
    requires Passed(wr, w, n, from, head) && Untouched(w, head.cursor, rest)
    ensures Passed(wr, w, n, from, After(head.events, head.drained, rest))
  {
    ProjectConcat(head.events, rest.events, w);
    ProjectConcat(head.drained, rest.drained, w);
    ConcatNothing(Project(head.events, w));
    ConcatNothing(Project(head.drained, w));
    PassedAlike(wr, w, n, from, head, After(head.events, head.drained, rest));
  }

  lemma {:induction false} UntouchedThenPassed(wr: Writer, w: Name, n: nat, from: nat, cursor: map<Name, Position>,
                                               head: Pass, rest: Pass)
    requires Untouched(w, cursor, head) && Passed(wr, w, n, from, rest)
    ensures Passed(wr, w, n, from, After(head.events, head.drained, rest))
  {
    ProjectConcat(head.events, rest.events, w);
    ProjectConcat(head.drained, rest.drained, w);
    NothingConcat(Project(rest.events, w));
    NothingConcat(Project(rest.drained, w));
    PassedAlike(wr, w, n, from, rest, After(head.events, head.drained, rest));
  }

  lemma {:induction false} UntouchedTwice(w: Name, cursor: map<Name, Position>, head: Pass, rest: Pass)
    requires Untouched(w, cursor, head) && Untouched(w, head.cursor, rest)
    ensures Untouched(w, cursor, After(head.events, head.drained, rest))
  {
    ProjectConcat(head.events, rest.events, w);
    ProjectConcat(head.drained, rest.drained, w);
  }

  lemma {:induction false} HeadLeavesOthers(files: Directory, w: Name, cursor: map<Name, Position>, budget: nat,
                                            v: Name)
    requires v != w
    ensures Untouched(v, cursor, ReadOne(files, w, cursor, budget).0)
  {
    if files != [] {
      var scan := ReadWriter(files, Get(cursor, w), budget);
      ProjectTag(w, scan.events, v);
      ProjectPaths(w, scan.drained, v);
    }
  }

  ghost predicate AllCanStart(s: Sys, order: seq<Name>, cursor: map<Name, Position>) {
    Distinct(order) && forall w | w in order :: CanStart(WriterOf(s, w), w, |Stored(s, w)|, cursor)
  }

  lemma {:induction false} TailCanStart(s: Sys, order: seq<Name>, cursor: map<Name, Position>, budget: nat)
    requires order != [] && AllCanStart(s, order, cursor)
    ensures AllCanStart(s, order[1..], ReadOne(WriterOf(s, order[0]).files, order[0], cursor, budget).0.cursor)
    ensures order[0] !in order[1..]
    ensures DirectoryOf(Directories(s), order[0]) == WriterOf(s, order[0]).files
  {
    var w := order[0];
    forall u | u in order[1..]
      ensures u != w && CanStart(WriterOf(s, u), u, |Stored(s, u)|,
                                 ReadOne(WriterOf(s, w).files, w, cursor, budget).0.cursor)
    {
      assert u in order;
      HeadLeavesOthers(WriterOf(s, w).files, w, cursor, budget, u);
    }
  }

  /** A pass treats each writer of the order soundly... */
  lemma {:induction false} ReadIsSound(s: Sys, order: seq<Name>, cursor: map<Name, Position>, budget: nat, v: Name)
    requires AllCanStart(s, order, cursor) && v in order
    ensures var wr := WriterOf(s, v);
            Passed(wr, v, |Stored(s, v)|, From(wr, v, cursor), ReadWriters(Directories(s), order, cursor, budget))
  {
    hide Passed, CanStart;
    var w, wr, n := order[0], WriterOf(s, v), |Stored(s, v)|;
    var (head, left) := ReadOne(WriterOf(s, w).files, w, cursor, budget);
    TailCanStart(s, order, cursor, budget);
    var rest := ReadWriters(Directories(s), order[1..], head.cursor, left);
    if v == w {
      HeadPassed(wr, w, n, cursor, budget);
      ReadSkips(s, order[1..], head.cursor, left, v);
      PassedThenUntouched(wr, v, n, From(wr, v, cursor), head, rest);
    } else {
      HeadLeavesOthers(WriterOf(s, w).files, w, cursor, budget, v);
      assert v in order[1..];
      if left == 0 {
        StartedPassesNothing(wr, v, n, cursor, head);
      } else {
        ReadIsSound(s, order[1..], head.cursor, left, v);
        UntouchedThenPassed(wr, v, n, From(wr, v, cursor), cursor, head, rest);
      }
    }
  }

  lemma {:induction false} StartedPassesNothing(wr: Writer, w: Name, n: nat, cursor: map<Name, Position>, pass: Pass)
    requires CanStart(wr, w, n, cursor) && Untouched(w, cursor, pass)
    ensures Passed(wr, w, n, From(wr, w, cursor), pass)
  {
    NothingPassed(wr, w, n, cursor, pass);
  }

  /** ...and leaves the others alone. */
  lemma {:induction false} ReadSkips(s: Sys, order: seq<Name>, cursor: map<Name, Position>, budget: nat, v: Name)
    requires v !in order
    ensures Untouched(v, cursor, ReadWriters(Directories(s), order, cursor, budget))
  {
    if order != [] {
      var files := DirectoryOf(Directories(s), order[0]);
      var (head, left) := ReadOne(files, order[0], cursor, budget);
      HeadLeavesOthers(files, order[0], cursor, budget, v);
      if left != 0 {
        ReadSkips(s, order[1..], head.cursor, left, v);
        UntouchedTwice(v, cursor, head, ReadWriters(Directories(s), order[1..], head.cursor, left));
      }
    }
  }

  /** The events of a writer that the control plane does not have yet. */
  function Unstored(s: Sys, w: Name): seq<Line> {
    var n := |Stored(s, w)|;
    if n <= |WriterOf(s, w).appended| then WriterOf(s, w).appended[n..] else []
  }

  /** A pass delivers something exactly when some writer's next event fits the limit.  A first
      event longer than the limit holds its writer back until the limit is raised. */
  lemma {:induction false} ReadAdvances(s: Sys, order: seq<Name>, cursor: map<Name, Position>, budget: nat)
    requires AllCanStart(s, order, cursor)
    ensures ReadWriters(Directories(s), order, cursor, budget).events != [] <==>
            exists w | w in order :: Fits(Unstored(s, w), budget)
  {
    hide Passed, ReadOne, Stored, WriterOf, DirectoryOf;
    if order != [] {
      var w := order[0];
      var (head, left) := ReadOne(WriterOf(s, w).files, w, cursor, budget);
      TailCanStart(s, order, cursor, budget);
      assert CanStart(WriterOf(s, w), w, |Stored(s, w)|, cursor);
      HeadPassed(WriterOf(s, w), w, |Stored(s, w)|, cursor, budget);
      SplitFirst(order);
      assert forall v | v in order :: v == w || v in order[1..];
      if head.events != [] {
        assert w in order && Fits(Unstored(s, w), budget);
      } else if left == 0 {
        assert budget == 0;
      } else {
        assert left == budget;
        ReadAdvances(s, order[1..], head.cursor, left);
      }
    }
  }

  // ---- Every step keeps the invariant ----

  lemma {:induction false} ReadKeeps(s: Sys, order: seq<Name>, limit: nat, maxBytes: nat, v: Name)
    requires Inv(s) && Enabled(s, Read(order, limit))
    ensures InvFor(Next(s, Read(order, limit), maxBytes), v)
  {
    hide Passed, CanStart, Consistent, Disposable;
    var pass, wr := ReadWriters(Directories(s), order, s.store.cursor, limit), WriterOf(s, v);
    assert InvFor(s, v);
    InvCanStart(s, [v]);
    assert v in [v];
    if v in order {
      InvCanStart(s, order);
      ReadIsSound(s, order, s.store.cursor, limit, v);
    } else {
      ReadSkips(s, order, s.store.cursor, limit, v);
      StartedPassesNothing(wr, v, |Stored(s, v)|, s.store.cursor, pass);
    }
    PassIsOk(wr, v, s.store, pass);
  }

  lemma {:induction false} InvCanStart(s: Sys, order: seq<Name>)
    requires Inv(s) && Distinct(order)
    ensures AllCanStart(s, order, s.store.cursor)
  {
    forall w | w in order ensures CanStart(WriterOf(s, w), w, |Stored(s, w)|, s.store.cursor) {
      assert InvFor(s, w);
    }
  }

  lemma {:induction false} PassIsOk(wr: Writer, w: Name, store: Store, pass: Pass)
    requires Consistent(wr, w, store.cursor, store.events)
    requires Passed(wr, w, |Project(store.events, w)|, From(wr, w, store.cursor), pass)
    ensures PassOk(wr, w, store, pass)
  {
    ProjectConcat(store.events, pass.events, w);
    var done, more := Project(store.events, w), Project(pass.events, w);
    assert wr.appended[..|done| + |more|] == done + more;
  }

  lemma {:induction false} AppendKeepsInv(s: Sys, step: Step, maxBytes: nat, v: Name)
    requires Inv(s) && step.Append? && Enabled(s, step)
    ensures InvFor(Next(s, step, maxBytes), v)
  {
    hide Consistent, Disposable;
    assert InvFor(s, v);
    if v == step.w {
      var wr := WriterOf(s, v);
      var wr' := AppendStep(wr, step.line, maxBytes, step.stamp, step.inode, step.fault);
      AppendKeeps(wr, step.line, maxBytes, step.stamp, step.inode, step.fault);
      AppendKeepsNames(wr, step.line, maxBytes, step.stamp, step.inode, step.fault);
      GrowthKeeps(wr, wr', v, s.store, s.pass, s.pending);
    }
  }

  lemma {:induction false} GrowthKeeps(wr: Writer, wr': Writer, w: Name, store: Store, pass: Option<Pass>,
                                       pending: seq<PathList>)
    requires WriterOk(wr, w, store, pass, pending) && Grows(wr, wr') && KeepsNames(wr, wr')
    ensures WriterOk(wr', w, store, pass, pending)
  {
    hide Consistent, Disposable, Valid, Extends, KeepsNames;
    GrowthKeepsCursor(wr, wr', w, store.cursor, store.events);
    forall k | 0 <= k < |pending| ensures Disposable(wr', w, store.cursor, pending[k]) {
      GrowthKeepsPaths(wr, wr', w, store.cursor, store.events, pending[k]);
    }
    if pass.Some? {
      GrowthKeepsCursor(wr, wr', w, pass.value.cursor, store.events + pass.value.events);
      GrowthKeepsPaths(wr, wr', w, pass.value.cursor, store.events + pass.value.events, pass.value.drained);
    }
  }

  lemma {:induction false} GrowthKeepsCursor(wr: Writer, wr': Writer, w: Name, cursor: map<Name, Position>,
                                             events: seq<(Name, Bytes)>)
    requires Valid(wr) && Extends(wr, wr') && Consistent(wr, w, cursor, events)
    ensures Consistent(wr', w, cursor, events) && From(wr', w, cursor) == From(wr, w, cursor)
  {
    var n := |Project(events, w)|;
    AtIsStable(wr, wr', Get(cursor, w), n);
    CutIsStable(wr, wr', Get(cursor, w), n);
    assert wr.appended[..n] == wr'.appended[..n];
  }

  lemma {:induction false} GrowthKeepsPaths(wr: Writer, wr': Writer, w: Name, cursor: map<Name, Position>,
                                            events: seq<(Name, Bytes)>, paths: PathList)
    requires Valid(wr) && Extends(wr, wr') && KeepsNames(wr, wr') && Consistent(wr, w, cursor, events)
    requires Disposable(wr, w, cursor, paths)
    ensures Disposable(wr', w, cursor, paths)
  {
    hide Valid, Extends, KeepsNames, Removable, Cut, At;
    GrowthKeepsCursor(wr, wr', w, cursor, events);
    RemovableIsStable(wr, wr', From(wr, w, cursor), Project(paths, w));
  }

  /** Every cursor and list survives the removal of a writer's oldest file. */
  lemma {:induction false} OldestRemoved(wr: Writer, w: Name, store: Store, pass: Option<Pass>, pending: seq<PathList>)
    requires WriterOk(wr, w, store, pass, pending) && From(wr, w, store.cursor) > 0
    requires wr.files != [] && wr.kept != [] && wr.files[0].name.Stamped?
    ensures WriterOk(UnlinkStep(wr), w, store, pass, pending)
  {
    hide Cut, At, Removable, Valid;
    UnlinkKeeps(wr, Get(store.cursor, w), |Project(store.events, w)|);
    forall k | 0 <= k < |pending| ensures Disposable(UnlinkStep(wr), w, store.cursor, pending[k]) {
      UnlinkKeepsList(wr, From(wr, w, store.cursor), Project(pending[k], w));
    }
    if pass.Some? {
      var p := pass.value;
      UnlinkKeeps(wr, Get(p.cursor, w), |Project(store.events + p.events, w)|);
      UnlinkKeepsList(wr, From(wr, w, p.cursor), Project(p.drained, w));
    }
  }

  /** A list whose first path is gone goes on with the others. */
  lemma {:induction false} ListPops(wr: Writer, w: Name, store: Store, pass: Option<Pass>, pending: seq<PathList>,
                                    k: nat)
    requires WriterOk(wr, w, store, pass, pending) && k < |pending| && pending[k] != []
    requires pending[k][0].0 == w ==> IndexOfName(wr.files, pending[k][0].1) == |wr.files|
    ensures WriterOk(wr, w, store, pass, pending[k := pending[k][1..]])
  {
    hide Cut, Removable, Valid, Consistent, PassOk;
    if pending[k][0].0 == w {
      var names := Project(pending[k], w);
      assert names[0] == pending[k][0].1 && names[1..] == Project(pending[k][1..], w);
      NextOfList(wr, From(wr, w, store.cursor), names);
    }
  }

  /** The first path of a list is missing, or it is its writer's oldest file, which the cursor has
      left behind. */
  lemma {:induction false} HeadIsOldest(wr: Writer, w: Name, store: Store, pass: Option<Pass>, pending: seq<PathList>,
                                        k: nat)
    requires WriterOk(wr, w, store, pass, pending) && k < |pending| && pending[k] != [] && pending[k][0].0 == w
    ensures var name := pending[k][0].1;
            if IndexOfName(wr.files, name) == |wr.files| then Unlinked(wr, name) == wr
            else
              && wr.files != [] && wr.kept != [] && wr.files[0].name == name && name.Stamped?
              && From(wr, w, store.cursor) > 0 && Unlinked(wr, name) == UnlinkStep(wr)
  {
    hide Cut, Removable, Valid, Consistent, PassOk;
    var names := Project(pending[k], w);
    assert names[0] == pending[k][0].1;
    ListHead(wr, From(wr, w, store.cursor), names);
  }

  lemma {:induction false} UnlinkKeepsInv(s: Sys, k: nat, maxBytes: nat, v: Name)
    requires InvFor(s, v) && Enabled(s, Unlink(k))
    ensures InvFor(Next(s, Unlink(k), maxBytes), v)
  {
    hide WriterOk, UnlinkStep;
    var (w, name) := s.pending[k][0];
    var wr := WriterOf(s, v);
    if v != w {
      ListPops(wr, v, s.store, s.pass, s.pending, k);
    } else {
      HeadIsOldest(wr, v, s.store, s.pass, s.pending, k);
      if IndexOfName(wr.files, name) != |wr.files| {
        OldestRemoved(wr, v, s.store, s.pass, s.pending);
        OldestIsDead(wr, v, s.store, s.pass, s.pending);
      }
      ListPops(Unlinked(wr, name), v, s.store, s.pass, s.pending, k);
    }
  }

  lemma {:induction false} OldestIsDead(wr: Writer, w: Name, store: Store, pass: Option<Pass>, pending: seq<PathList>)
    requires WriterOk(wr, w, store, pass, pending)
    requires wr.files != [] && wr.kept != [] && wr.files[0].name.Stamped?
    ensures Dead(UnlinkStep(wr), wr.files[0].name)
  {
    FirstNameDies(wr);
  }

  lemma {:induction false} CommitKeeps(s: Sys, maxBytes: nat, v: Name)
    requires InvFor(s, v) && s.pass.Some?
    ensures InvFor(Next(s, Commit, maxBytes), v)
  {
    hide Cut, Removable, Valid, Consistent, Disposable;
    var wr, pass := WriterOf(s, v), s.pass.value;
    if pass.events == [] && pass.cursor == s.store.cursor {
      NothingIsDisposable(wr, v, s.store.cursor);
    } else {
      forall k | 0 <= k < |s.pending| ensures Disposable(wr, v, pass.cursor, s.pending[k]) {
        DisposableIsMonotone(wr, v, s.store.cursor, pass.cursor, s.pending[k]);
      }
    }
  }

  lemma {:induction false} DisposableIsMonotone(wr: Writer, w: Name, cursor: map<Name, Position>,
                                                cursor': map<Name, Position>, paths: PathList)
    requires Disposable(wr, w, cursor, paths) && From(wr, w, cursor) <= From(wr, w, cursor')
    ensures Disposable(wr, w, cursor', paths)
  {
    ListIsMonotone(wr, From(wr, w, cursor), From(wr, w, cursor'), Project(paths, w));
  }

  lemma {:induction false} NothingIsDisposable(wr: Writer, w: Name, cursor: map<Name, Position>)
    ensures Disposable(wr, w, cursor, [])
  {
    NothingIsRemovable(wr, From(wr, w, cursor));
  }

  /** A call may lose its pass or the rest of its list, and the process all of them. */
  lemma {:induction false} DropsKeep(wr: Writer, w: Name, store: Store, pass: Option<Pass>, pending: seq<PathList>,
                                     k: nat)
    requires WriterOk(wr, w, store, pass, pending)
    ensures WriterOk(wr, w, store, None, pending) && WriterOk(wr, w, store, None, [])
    ensures k < |pending| ==> WriterOk(wr, w, store, pass, pending[k := []])
  {
    hide Valid, Consistent, Disposable, PassOk;
    NothingIsDisposable(wr, w, store.cursor);
  }

  lemma {:induction false} StepKeepsInvFor(s: Sys, step: Step, maxBytes: nat, v: Name)
    requires Inv(s) && Enabled(s, step)
    ensures InvFor(Next(s, step, maxBytes), v)
  {
    hide WriterOk;
    assert InvFor(s, v);
    match step {
      case Append(_, _, _, _, _) => AppendKeepsInv(s, step, maxBytes, v);
      case Read(order, limit) => ReadKeeps(s, order, limit, maxBytes, v);
      case Commit => CommitKeeps(s, maxBytes, v);
      case Unlink(k) => UnlinkKeepsInv(s, k, maxBytes, v);
      case GiveUp(k) => DropsKeep(WriterOf(s, v), v, s.store, s.pass, s.pending, k);
      case _ => DropsKeep(WriterOf(s, v), v, s.store, s.pass, s.pending, 0);
    }
  }

  lemma {:induction false} StepKeepsInv(s: Sys, step: Step, maxBytes: nat)
    requires Inv(s) && Enabled(s, step)
    ensures Inv(Next(s, step, maxBytes))
  {
    hide InvFor, Next, Enabled;
    forall v: Name ensures InvFor(Next(s, step, maxBytes), v) {
      StepKeepsInvFor(s, step, maxBytes, v);
    }
  }

  lemma {:induction false} RunKeepsInv(steps: seq<Step>, maxBytes: nat)
    requires Run(steps, maxBytes).Some?
    ensures Inv(Run(steps, maxBytes).value)
  {
    if steps != [] {
      RunKeepsInv(steps[..|steps| - 1], maxBytes);
      StepKeepsInv(Run(steps[..|steps| - 1], maxBytes).value, steps[|steps| - 1], maxBytes);
    }
  }

  // ---- Main results ----

  /** Exactly once: after any run the stored events of a writer are a prefix, in order and
      without repeats, of the events it appended, and the rest is still on disk. */
  lemma {:induction false} ExactlyOnce(steps: seq<Step>, maxBytes: nat, w: Name)
    requires Run(steps, maxBytes).Some?
    ensures var s := Run(steps, maxBytes).value;
            var wr := WriterOf(s, w);
            && Stored(s, w) <= wr.appended
            && wr.gone <= Stored(s, w)
            && wr.appended == wr.gone + Flatten(wr.kept)
            && Holds(wr.files, wr.kept)
  {
    RunKeepsInv(steps, maxBytes);
    var s := Run(steps, maxBytes).value;
    assert InvFor(s, w);
    var wr := WriterOf(s, w);
    GoneIsCommitted(wr, Get(s.store.cursor, w), |Stored(s, w)|);
    assert wr.appended[..|wr.gone|] == wr.gone;
    assert Stored(s, w)[..|wr.gone|] == wr.gone;
  }

  lemma {:induction false} GoneIsCommitted(wr: Writer, position: Option<Position>, n: nat)
    requires At(wr, position, n)
    ensures |wr.gone| <= n
  {}

  /** Whatever calls overlap, the next path of every list is missing, and unlinking it changes
      nothing, or it is its writer's oldest file and every event in it is already committed. */
  lemma {:induction false} OnlyCommittedFilesAreDeleted(steps: seq<Step>, maxBytes: nat, k: nat)
    requires Run(steps, maxBytes).Some? && Enabled(Run(steps, maxBytes).value, Unlink(k))
    ensures var s := Run(steps, maxBytes).value;
            var (w, name) := s.pending[k][0];
            var wr, after := WriterOf(s, w), WriterOf(Next(s, Unlink(k), maxBytes), w);
            if forall f | f in wr.files :: f.name != name then after == wr
            else
              && wr.files != [] && wr.kept != []
              && wr.files[0].name == name && name.Stamped?
              && wr.files[0].data == Flat(wr.kept[0])
              && wr.gone + wr.kept[0] <= Stored(s, w)
              && after.files == wr.files[1..]
  {
    RunKeepsInv(steps, maxBytes);
    var s := Run(steps, maxBytes).value;
    var (w, name) := s.pending[k][0];
    var wr := WriterOf(s, w);
    assert InvFor(s, w);
    HeadIsOldest(wr, w, s.store, s.pass, s.pending, k);
    if IndexOfName(wr.files, name) != |wr.files| {
      OldestIsCommitted(wr, w, s.store);
    }
  }

  lemma {:induction false} OldestIsCommitted(wr: Writer, w: Name, store: Store)
    requires Valid(wr) && Consistent(wr, w, store.cursor, store.events) && From(wr, w, store.cursor) > 0
    ensures wr.files != [] && wr.kept != []
    ensures wr.files[0].data == Flat(wr.kept[0]) && wr.gone + wr.kept[0] <= Project(store.events, w)
  {
    var n := |Project(store.events, w)|;
    UnlinkKeeps(wr, Get(store.cursor, w), n);
    var done := UnlinkStep(wr).gone;
    assert wr.appended == done + Flatten(wr.kept[1..]);
    assert wr.appended[..|done|] == done;
    assert Project(store.events, w)[..|done|] == done;
  }

  /** In any reachable state a pass over all writers either delivers an event or finds, for each
      writer, everything stored or a next event longer than the limit. */
  lemma {:induction false} PassAdvancesIff(steps: seq<Step>, maxBytes: nat, order: seq<Name>, limit: nat)
    requires Run(steps, maxBytes).Some? && Distinct(order)
    ensures var s := Run(steps, maxBytes).value;
            ReadWriters(Directories(s), order, s.store.cursor, limit).events != [] <==>
            exists w | w in order :: Fits(Unstored(s, w), limit)
  {
    RunKeepsInv(steps, maxBytes);
    var s := Run(steps, maxBytes).value;
    InvCanStart(s, order);
    ReadAdvances(s, order, s.store.cursor, limit);
  }

  lemma {:induction false} ProjectHas<T>(entries: seq<(Name, T)>, w: Name, x: T)
    requires (w, x) in entries
    ensures x in Project(entries, w)
  {
    if entries[0] != (w, x) {
      SplitFirst(entries);
      ProjectHas(entries[1..], w, x);
    }
  }

  lemma {:induction false} ProjectFrom<T>(entries: seq<(Name, T)>, w: Name, x: T)
    requires x in Project(entries, w)
    ensures (w, x) in entries
  {
    SplitFirst(entries);
    if entries[0] != (w, x) {
      ProjectFrom(entries[1..], w, x);
    }
  }

  // ---- Paths that were lost ----

  /** Does a pass have budget left when it comes to this writer? */
  predicate Reaches(dirs: map<Name, Directory>, order: seq<Name>, cursor: map<Name, Position>, budget: nat, w: Name) {
    order != [] &&
      (order[0] == w ||
       var (head, left) := ReadOne(DirectoryOf(dirs, order[0]), order[0], cursor, budget);
       left != 0 && Reaches(dirs, order[1..], head.cursor, left, w))
  }

  /** The names list starts with those of these files. */
  ghost predicate StartsWith(names: seq<FileName>, files: Directory, n: nat) {
    n <= |files| && n <= |names| && forall i | 0 <= i < n :: names[i] == files[i].name
  }

  lemma {:induction false} HeadListsOld(files: Directory, w: Name, cursor: map<Name, Position>, budget: nat)
    ensures StartsWith(Project(ReadOne(files, w, cursor, budget).0.drained, w), files, Start(files, Get(cursor, w)).0)
  {
    if files != [] {
      hide ScanFrom, Start;
      var scan := ReadWriter(files, Get(cursor, w), budget);
      ProjectPaths(w, scan.drained, w);
    } else {
      assert Start(files, Get(cursor, w)).0 == 0;
    }
  }

  /** A pass lists the files before a writer's cursor exactly when it comes to the writer. */
  lemma {:induction false} PassListsOld(s: Sys, order: seq<Name>, cursor: map<Name, Position>, budget: nat, w: Name)
    requires Distinct(order)
    ensures var dirs := Directories(s);
            var files, names := DirectoryOf(dirs, w), Project(ReadWriters(dirs, order, cursor, budget).drained, w);
            if Reaches(dirs, order, cursor, budget, w) then StartsWith(names, files, Start(files, Get(cursor, w)).0)
            else names == []
  {
    hide ReadOne, Start, StartsWith;
    if order != [] {
      var dirs, v := Directories(s), order[0];
      var (head, left) := ReadOne(DirectoryOf(dirs, v), v, cursor, budget);
      var rest := ReadWriters(dirs, order[1..], head.cursor, left);
      ProjectConcat(head.drained, rest.drained, w);
      if v == w {
        HeadListsOld(DirectoryOf(dirs, w), w, cursor, budget);
        ReadSkips(s, order[1..], head.cursor, left, w);
        ConcatNothing(Project(head.drained, w));
      } else {
        HeadLeavesOthers(DirectoryOf(dirs, v), v, cursor, budget, w);
        PassListsOld(s, order[1..], head.cursor, left, w);
        NothingConcat(Project(rest.drained, w));
      }
    }
  }

  /** When the paths of drained files are lost, to a crash or a failing unlink, the files stay.  The
      exact condition for such a file to be listed for unlinking again: a later call comes to its
      writer before its budget is used up, and stores an event or moves a cursor.  As long as nothing
      new is stored they are not listed. */
  lemma {:induction false} LostPathsReturnIff(steps: seq<Step>, maxBytes: nat, order: seq<Name>, limit: nat,
                                              w: Name, i: nat)
    requires Run(steps, maxBytes).Some? && Enabled(Run(steps, maxBytes).value, Read(order, limit))
    requires var s := Run(steps, maxBytes).value; i < From(WriterOf(s, w), w, s.store.cursor)
    ensures var s := Run(steps, maxBytes).value;
            var pass := ReadWriters(Directories(s), order, s.store.cursor, limit);
            var after := Next(Next(s, Read(order, limit), maxBytes), Commit, maxBytes);
            && |after.pending| == |s.pending| + 1
            && i < |WriterOf(s, w).files|
            && ((w, WriterOf(s, w).files[i].name) in after.pending[|s.pending|] <==>
                  && Reaches(Directories(s), order, s.store.cursor, limit, w)
                  && (pass.events != [] || pass.cursor != s.store.cursor))
  {
    hide Run, ReadWriters, Reaches, Start;
    var s := Run(steps, maxBytes).value;
    var pass := ReadWriters(Directories(s), order, s.store.cursor, limit);
    var name := WriterOf(s, w).files[i].name;
    var names := Project(pass.drained, w);
    PassListsOld(s, order, s.store.cursor, limit, w);
    if (w, name) in pass.drained { ProjectHas(pass.drained, w, name); }
    if Reaches(Directories(s), order, s.store.cursor, limit, w) {
      assert names[i] == name;
      ProjectFrom(pass.drained, w, name);
    }
  }

  /** The reader drops lines that are not events.  In any reachable state it drops none, because
      only events were appended. */
  lemma {:induction false} NothingIsDropped(steps: seq<Step>, maxBytes: nat, order: seq<Name>, limit: nat,
                                            isEvent: Bytes -> bool)
    requires Run(steps, maxBytes).Some? && Distinct(order)
    requires forall w: Name, e | e in WriterOf(Run(steps, maxBytes).value, w).appended :: isEvent(e)
    ensures var s := Run(steps, maxBytes).value;
            var pass := ReadWriters(Directories(s), order, s.store.cursor, limit);
            ParsedEvents(pass.events, isEvent) == pass.events
  {
    RunKeepsInv(steps, maxBytes);
    var s := Run(steps, maxBytes).value;
    InvCanStart(s, order);
    var pass := ReadWriters(Directories(s), order, s.store.cursor, limit);
    forall e | e in pass.events ensures isEvent(e.1) {
      ProjectHas(pass.events, e.0, e.1);
      if e.0 in order {
        ReadIsSound(s, order, s.store.cursor, limit, e.0);
      } else {
        ReadSkips(s, order, s.store.cursor, limit, e.0);
      }
    }
    AllParsed(pass.events, isEvent);
  }

  // ---- The control plane's object ----

  const MAX_READ_BYTES: nat := 4 * 1024 * 1024

  class ControlPlane {
    var store: Store

    constructor ()
      ensures store == INITIAL.store
    {
      store := INITIAL.store;
    }

    /** Rows and cursor in one transaction; nothing changes when it does not commit. */
    method InsertRows(events: seq<(Name, Bytes)>, cursor: map<Name, Position>, commits: bool)
      modifies this
      ensures store == if commits then Store(cursor, old(store.events) + events) else old(store)
    {
      var rows := store.events;
      for i := 0 to |events|
        invariant rows == store.events + events[..i]
        invariant store == old(store)
      {
        rows := rows + [events[i]];
      }
      assert events[..|events|] == events;
      if commits {
        store := Store(cursor, rows);
      }
    }

    /** One read, one commit; the caller then unlinks the paths. */
    method IngestEvents(dirs: map<Name, Directory>, order: seq<Name>, commits: bool, isEvent: Bytes -> bool)
      returns (count: nat, paths: PathList)
      modifies this
      ensures var all := ReadWriters(dirs, order, old(store.cursor), MAX_READ_BYTES);
              var pass := all.(events := ParsedEvents(all.events, isEvent));
              var (after, drained) := CommitPass(old(store), pass);
              && count == (if commits then |pass.events| else 0)
              && store == (if commits then after else old(store))
              && paths == (if commits then drained else [])
    {
      var pass := ReadPending(dirs, order, store.cursor, MAX_READ_BYTES, isEvent);
      if pass.events == [] && pass.cursor == store.cursor {
        return 0, [];
      }
      InsertRows(pass.events, pass.cursor, commits);
      if !commits {
        return 0, [];
      }
      return |pass.events|, pass.drained;
    }
  }
}
