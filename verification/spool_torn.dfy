/** What a torn line at the end of a sealed file does to its writer, over every run.

    A short write leaves the beginning of a line in the active file.  If the next append rotates,
    the file is sealed as it is.  The reader never gets past it: it reads up to the last newline, so
    it never reaches the end of the file, and only then would it go on to the next one.  The runs
    here are those of SpoolSystem without the assumption that lines are written whole. */
module SpoolTorn {
  import opened Sequences
  import opened Wrappers
  import opened Spool
  import opened SpoolWriter
  import opened SpoolDelivery
  import opened SpoolSystem

  /** A sealed file whose last byte is not a newline. */
  predicate Torn(f: File) { f.name.Stamped? && f.data != [] && f.data[|f.data| - 1] != NEWLINE }

  // ---- How such a file comes about ----

  /** A short write leaves the active file torn, and the next rotation seals it as it is. */
  lemma {:induction false} TornFileIsSealed(files: Directory, lastStamp: nat, line: Line, n: nat, maxBytes: nat,
                                            next: Line, stamp: nat)
    requires Listed(files, lastStamp) && HasActive(files) && 0 < n <= |line| && lastStamp < stamp
    requires var torn := Written(files, Take(line + [NEWLINE], n)); MustRotate(torn, next, maxBytes)
    ensures var torn := Written(files, Take(line + [NEWLINE], n));
            var sealed := Rotated(torn, next, maxBytes, stamp);
            && |sealed| == |files| && Torn(sealed[|files| - 1])
            && sealed[|files| - 1].data == files[|files| - 1].data + line[..n]
  {
    hide Place;
    var torn := Written(files, Take(line + [NEWLINE], n));
    var last := |files| - 1;
    assert torn[..last] == files[..last];
    PlacedLast(torn[..last], torn[last].(name := Stamped(stamp)));
    assert Take(line + [NEWLINE], n) == line[..n];
    assert line[n - 1] in line;
  }

  // ---- Listings stay in order ----

  lemma {:induction false} ListedRotated(files: Directory, lastStamp: nat, line: Line, maxBytes: nat, stamp: nat)
    requires Listed(files, lastStamp) && lastStamp < stamp
    ensures var rotated := Rotated(files, line, maxBytes, stamp);
            && Listed(rotated, stamp) && |rotated| == |files|
            && (MustRotate(files, line, maxBytes) ==> !HasActive(rotated))
            && (forall i | 0 <= i < |files| ::
                  rotated[i].inode == files[i].inode && (files[i].name.Stamped? ==> rotated[i] == files[i]))
  {
    hide Place;
    if MustRotate(files, line, maxBytes) {
      var last := |files| - 1;
      PlacedLast(files[..last], files[last].(name := Stamped(stamp)));
    }
  }

  lemma {:induction false} ListedOpened(files: Directory, lastStamp: nat, inode: nat)
    requires Listed(files, lastStamp) && forall i | 0 <= i < |files| :: files[i].inode != inode
    ensures Listed(Opened(files, inode), lastStamp) && files <= Opened(files, inode)
  {}

  lemma {:induction false} ListedWritten(files: Directory, lastStamp: nat, data: Bytes)
    requires Listed(files, lastStamp) && HasActive(files)
    ensures Listed(Written(files, data), lastStamp)
    ensures forall f | f in files && f.name.Stamped? :: f in Written(files, data)
  {
    var written := Written(files, data);
    forall f | f in files && f.name.Stamped? ensures f in written {
      var i :| 0 <= i < |files| && files[i] == f;
      assert written[i] == f;
    }
  }

  /** An append, torn or not, keeps the listing in order and every sealed file in it. */
  lemma {:induction false} AppendKeepsSealed(files: Directory, lastStamp: nat, line: Line, maxBytes: nat, stamp: nat,
                                             inode: nat, fault: Fault, f: File)
    requires Listed(files, lastStamp) && lastStamp < stamp
    requires forall i | 0 <= i < |files| :: files[i].inode != inode
    requires f in files && f.name.Stamped?
    ensures var after := Appended(files, line, maxBytes, stamp, inode, fault); Listed(after, stamp) && f in after
  {
    hide Listed, Place, Written, Opened, Rotated;
    if fault.RotateFault? && MustRotate(files, line, maxBytes) {
      ListedLater(files, lastStamp, stamp);
    } else {
      var rotated := Rotated(files, line, maxBytes, stamp);
      ListedRotated(files, lastStamp, line, maxBytes, stamp);
      var i :| 0 <= i < |files| && files[i] == f;
      assert rotated[i] == f;
      if !fault.OpenFault? {
        ListedOpened(rotated, stamp, inode);
        assert f in Opened(rotated, inode);
        ListedWritten(Opened(rotated, inode), stamp,
                      if fault.ShortWrite? then Take(line + [NEWLINE], fault.n) else line + [NEWLINE]);
      }
    }
  }

  lemma {:induction false} ListedLater(files: Directory, lastStamp: nat, stamp: nat)
    requires Listed(files, lastStamp) && lastStamp <= stamp
    ensures Listed(files, stamp)
  {}

  function Without(files: Directory, i: nat): Directory
    requires i < |files|
  {
    files[..i] + files[i + 1..]
  }

  lemma {:induction false} WithoutAt(files: Directory, i: nat)
    requires i < |files|
    ensures |Without(files, i)| == |files| - 1
    ensures forall j | 0 <= j < i :: Without(files, i)[j] == files[j]
    ensures forall j | i <= j < |files| - 1 :: Without(files, i)[j] == files[j + 1]
  {}

  lemma {:induction false} ListedWithout(files: Directory, lastStamp: nat, i: nat)
    requires Listed(files, lastStamp) && i < |files|
    ensures Listed(Without(files, i), lastStamp)
  {
    WithoutAt(files, i);
    hide Without;
    var rest := Without(files, i);
    forall j | 0 <= j < |rest| - 1 ensures rest[j].name.Stamped? {
      assert rest[j] == files[if j < i then j else j + 1];
    }
    forall j, k | 0 <= j < k < |rest|
      ensures rest[j].inode != rest[k].inode
      ensures rest[k].name.Stamped? ==> rest[j].name.stamp < rest[k].name.stamp
    {
      assert rest[j] == files[if j < i then j else j + 1] && rest[k] == files[if k < i then k else k + 1];
    }
  }

  lemma {:induction false} WithoutKeeps(files: Directory, i: nat, f: File)
    requires i < |files| && f in files && f.name != files[i].name
    ensures f in Without(files, i)
  {
    WithoutAt(files, i);
    var j :| 0 <= j < |files| && files[j] == f;
    assert f == Without(files, i)[if j < i then j else j - 1];
  }

  lemma {:induction false} UnlinkKeepsSealed(wr: Writer, name: FileName, f: File)
    requires Listed(wr.files, wr.lastStamp) && f in wr.files && f.name != name
    ensures Listed(Unlinked(wr, name).files, wr.lastStamp) && f in Unlinked(wr, name).files
    ensures Unlinked(wr, name).lastStamp == wr.lastStamp
  {
    hide Listed;
    var i := IndexOfName(wr.files, name);
    if i < |wr.files| {
      ListedWithout(wr.files, wr.lastStamp, i);
      WithoutKeeps(wr.files, i, f);
      assert i == 0 ==> wr.files[1..] == Without(wr.files, 0);
    }
  }

  // ---- Reading the file ----

  lemma {:induction false} NoNewlineAfter(data: Bytes, k: nat)
    requires k <= |data| && (k == 0 || data[k - 1] == NEWLINE)
    ensures k <= CompleteLength(data)
  {
    if data != [] && data[|data| - 1] != NEWLINE { NoNewlineAfter(data[..|data| - 1], k); }
  }

  /** A read stops inside the file, at the end of a line. */
  lemma {:induction false} ChunkOfTorn(f: File, offset: nat, budget: nat)
    requires offset <= CompleteLength(f.data)
    ensures var chunk := Chunk(f, offset, budget);
            && offset + |chunk| <= CompleteLength(f.data)
            && chunk == f.data[offset..offset + |chunk|]
            && (chunk != [] ==> chunk[|chunk| - 1] == NEWLINE)
  {
    hide CompleteLength, Take, Drop;
    var rest := Take(Drop(f.data, offset), budget);
    var n := CompleteLength(rest);
    CompleteLengthIsLastNewline(rest);
    TakenSlice(f.data, offset, budget, n);
    if n > 0 { NoNewlineAfter(f.data, offset + n); }
  }

  lemma {:induction false} TakenSlice(data: Bytes, offset: nat, budget: nat, n: nat)
    requires offset <= |data| && n <= |Take(Drop(data, offset), budget)|
    ensures offset + n <= |data| && Take(Drop(data, offset), budget)[..n] == data[offset..offset + n]
    ensures n > 0 ==> Take(Drop(data, offset), budget)[n - 1] == data[offset + n - 1]
  {}

  /** From a cursor in a torn file a pass over its writer stays in that file. */
  lemma {:induction false} ReadOfTorn(wr: Writer, f: File, offset: nat, budget: nat)
    requires Listed(wr.files, wr.lastStamp) && f in wr.files && Torn(f) && offset <= CompleteLength(f.data)
    ensures var r, chunk := ReadWriter(wr.files, Some(Position(f.inode, offset)), budget), Chunk(f, offset, budget);
            && r.index < |wr.files| && wr.files[r.index] == f
            && r.events == SplitLines(chunk) && r.offset == offset + |chunk|
            && r.drained == wr.files[..r.index] && (forall g | g in r.drained :: g.name != f.name)
  {
    hide SplitLines, Chunk;
    var i :| 0 <= i < |wr.files| && wr.files[i] == f;
    LocateFile(wr.files, wr.lastStamp, i);
    ChunkOfTorn(f, offset, budget);
    assert CompleteLength(f.data) < |f.data|;
    ReadUnfolds(wr, Some(Position(f.inode, offset)), i, offset, budget);
    ScanUnfolds(wr.files, i, offset, budget);
    ConcatNothing(wr.files[..i]);
    forall g | g in wr.files[..i] ensures g.name != f.name {
      var j :| 0 <= j < i && wr.files[j] == g;
    }
  }

  lemma {:induction false} FirstBreakPrefix(x: Bytes, y: Bytes)
    requires FirstBreak(x) < |x|
    ensures FirstBreak(x + y) == FirstBreak(x)
  {
    if x[0] != NEWLINE && x[0] != RETURN {
      assert (x + y)[1..] == x[1..] + y;
      FirstBreakPrefix(x[1..], y);
    }
  }

  lemma {:induction false} BreakBeforeNewline(x: Bytes)
    requires x != [] && x[|x| - 1] == NEWLINE
    ensures FirstBreak(x) < |x| && (FirstBreak(x) == |x| - 1 ==> x[FirstBreak(x)] == NEWLINE)
  {
    if |x| > 1 && x[0] != NEWLINE && x[0] != RETURN { BreakBeforeNewline(x[1..]); }
  }

  lemma {:induction false} CutConcat(x: Bytes, y: Bytes, k: nat)
    requires k <= |x|
    ensures (x + y)[..k] == x[..k] && (x + y)[k..] == x[k..] + y
    ensures k < |x| ==> (x + y)[k] == x[k] && x[k..][|x| - k - 1] == x[|x| - 1]
  {}

  /** Where the first line and its break end. */
  function LineEnd(data: Bytes): (n: nat)
    requires FirstBreak(data) < |data|
    ensures FirstBreak(data) < n <= |data|
  {
    var k := FirstBreak(data);
    if data[k] == RETURN && k + 1 < |data| && data[k + 1] == NEWLINE then k + 2 else k + 1
  }

  lemma {:induction false} FirstLine(data: Bytes)
    requires FirstBreak(data) < |data|
    ensures SplitLines(data) == [data[..FirstBreak(data)]] + SplitLines(data[LineEnd(data)..])
  {}

  lemma {:induction false} SameFirstLine(x: Bytes, y: Bytes)
    requires x != [] && x[|x| - 1] == NEWLINE
    ensures FirstBreak(x) < |x| && FirstBreak(x + y) == FirstBreak(x) && LineEnd(x + y) == LineEnd(x)
  {
    hide FirstBreak;
    BreakBeforeNewline(x);
    FirstBreakPrefix(x, y);
    var k := FirstBreak(x);
    assert (x + y)[k] == x[k] && (k + 1 < |x| ==> (x + y)[k + 1] == x[k + 1]);
  }

  /** Splitting two reads one after the other, when the first ends with a newline. */
  lemma {:induction false} SplitLinesConcat(x: Bytes, y: Bytes)
    requires x == [] || x[|x| - 1] == NEWLINE
    ensures SplitLines(x + y) == SplitLines(x) + SplitLines(y)
    decreases |x|
  {
    hide SplitLines, FirstBreak, LineEnd;
    if x == [] {
      NothingConcat(y);
      NothingConcat(SplitLines(y));
      NoLines();
    } else {
      SameFirstLine(x, y);
      FirstLine(x);
      FirstLine(x + y);
      var k, n := FirstBreak(x), LineEnd(x);
      CutConcat(x, y, k);
      CutConcat(x, y, n);
      SplitLinesConcat(x[n..], y);
      Associate([x[..k]], SplitLines(x[n..]), SplitLines(y));
    }
  }

  lemma {:induction false} NoLines()
    ensures SplitLines([]) == []
  {}

  // ---- Every step ----

  /** The cursor stands in the file, and what was delivered since offset from are lines of it. */
  ghost predicate Inside(w: Name, f: File, base: seq<Bytes>, from: nat, cursor: map<Name, Position>,
                         events: seq<(Name, Bytes)>)
  {
    var p := Get(cursor, w);
    && p.Some? && p.value.inode == f.inode && from <= p.value.offset <= CompleteLength(f.data)
    && (p.value.offset == from || f.data[p.value.offset - 1] == NEWLINE)
    && Project(events, w) == base + SplitLines(f.data[from..p.value.offset])
  }

  ghost predicate StuckWriter(wr: Writer, f: File) { Listed(wr.files, wr.lastStamp) && f in wr.files }

  ghost predicate Stuck(s: Sys, w: Name, f: File, base: seq<Bytes>, from: nat) {
    && Torn(f) && StuckWriter(WriterOf(s, w), f)
    && Inside(w, f, base, from, s.store.cursor, s.store.events)
    && (forall k | 0 <= k < |s.pending| :: (w, f.name) !in s.pending[k])
    && (s.pass.Some? ==>
          && Inside(w, f, base, from, s.pass.value.cursor, s.store.events + s.pass.value.events)
          && (w, f.name) !in s.pass.value.drained)
  }

  /** As in SpoolSystem.Enabled, but writes may be torn. */
  ghost predicate Loose(s: Sys, step: Step) {
    match step
    case Append(w, _, stamp, inode, _) =>
      && WriterOf(s, w).lastStamp < stamp
      && forall i | 0 <= i < |WriterOf(s, w).files| :: WriterOf(s, w).files[i].inode != inode
    case _ => Enabled(s, step)
  }

  /** What a pass says of a writer is what reading this writer alone says. */
  ghost predicate Share(w: Name, cursor: map<Name, Position>, pass: Pass, c: map<Name, Position>, one: Pass) {
    && Get(c, w) == Get(cursor, w) && Project(pass.events, w) == Project(one.events, w)
    && Project(pass.drained, w) == Project(one.drained, w) && Get(pass.cursor, w) == Get(one.cursor, w)
  }

  lemma {:induction false} PassShare(s: Sys, order: seq<Name>, cursor: map<Name, Position>, budget: nat, w: Name)
    returns (c: map<Name, Position>, b: nat)
    requires Distinct(order)
    ensures var pass := ReadWriters(Directories(s), order, cursor, budget);
            || Untouched(w, cursor, pass)
            || Share(w, cursor, pass, c, ReadOne(DirectoryOf(Directories(s), w), w, c, b).0)
  {
    hide ReadOne;
    c, b := cursor, budget;
    if order != [] {
      var dirs, v := Directories(s), order[0];
      var (head, left) := ReadOne(DirectoryOf(dirs, v), v, cursor, budget);
      var rest := ReadWriters(dirs, order[1..], head.cursor, left);
      ProjectConcat(head.events, rest.events, w);
      ProjectConcat(head.drained, rest.drained, w);
      if v == w {
        ReadSkips(s, order[1..], head.cursor, left, w);
        ConcatNothing(Project(head.events, w));
        ConcatNothing(Project(head.drained, w));
      } else {
        HeadLeavesOthers(DirectoryOf(dirs, v), v, cursor, budget, w);
        NothingConcat(Project(rest.events, w));
        NothingConcat(Project(rest.drained, w));
        c, b := PassShare(s, order[1..], head.cursor, left, w);
      }
    }
  }

  /** Reading on inside the file. */
  lemma {:induction false} InsideGoesOn(w: Name, f: File, base: seq<Bytes>, from: nat, cursor: map<Name, Position>,
                                        events: seq<(Name, Bytes)>, budget: nat, moved: map<Name, Position>,
                                        more: seq<(Name, Bytes)>)
    requires Inside(w, f, base, from, cursor, events)
    requires var offset := cursor[w].offset;
             && Get(moved, w) == Some(Position(f.inode, offset + |Chunk(f, offset, budget)|))
             && Project(more, w) == SplitLines(Chunk(f, offset, budget))
    ensures Inside(w, f, base, from, moved, events + more)
  {
    hide SplitLines, Chunk, CompleteLength, Project;
    var offset := cursor[w].offset;
    var chunk := Chunk(f, offset, budget);
    ChunkOfTorn(f, offset, budget);
    ProjectConcat(events, more, w);
    LinesGoOn(f.data, from, offset, offset + |chunk|);
    Associate(base, SplitLines(f.data[from..offset]), SplitLines(chunk));
    NextSlice(f.data, from, offset, offset + |chunk|);
  }

  /** The lines between two positions at line ends, and on to a third. */
  lemma {:induction false} LinesGoOn(data: Bytes, i: nat, j: nat, k: nat)
    requires i <= j <= k <= |data| && (j == i || data[j - 1] == NEWLINE)
    ensures SplitLines(data[i..k]) == SplitLines(data[i..j]) + SplitLines(data[j..k])
  {
    hide SplitLines;
    NextSlice(data, i, j, k);
    SplitLinesConcat(data[i..j], data[j..k]);
  }

  lemma {:induction false} NextSlice(data: Bytes, i: nat, j: nat, k: nat)
    requires i <= j <= k <= |data|
    ensures data[i..j] + data[j..k] == data[i..k]
    ensures i < j ==> data[i..j][j - i - 1] == data[j - 1]
    ensures j < k ==> data[j..k][k - j - 1] == data[k - 1]
  {}

  lemma {:induction false} InsideStays(w: Name, f: File, base: seq<Bytes>, from: nat, cursor: map<Name, Position>,
                                       events: seq<(Name, Bytes)>, moved: map<Name, Position>,
                                       more: seq<(Name, Bytes)>)
    requires Inside(w, f, base, from, cursor, events) && Get(moved, w) == Get(cursor, w) && Project(more, w) == []
    ensures Inside(w, f, base, from, moved, events + more)
  {
    hide SplitLines, CompleteLength, Project;
    ProjectConcat(events, more, w);
    ConcatNothing(Project(events, w));
  }

  /** The writer's own share of a pass. */
  lemma {:induction false} ShareOfTorn(wr: Writer, w: Name, f: File, offset: nat, c: map<Name, Position>, b: nat)
    requires StuckWriter(wr, f) && Torn(f) && offset <= CompleteLength(f.data)
    requires Get(c, w) == Some(Position(f.inode, offset))
    ensures var one, chunk := ReadOne(wr.files, w, c, b).0, Chunk(f, offset, b);
            && Project(one.events, w) == SplitLines(chunk)
            && Get(one.cursor, w) == Some(Position(f.inode, offset + |chunk|))
            && f.name !in Project(one.drained, w)
  {
    hide SplitLines, Chunk, CompleteLength, ReadWriter;
    ReadOfTorn(wr, f, offset, b);
    var scan := ReadWriter(wr.files, Get(c, w), b);
    ProjectTag(w, scan.events, w);
    ProjectPaths(w, scan.drained, w);
    var names := Project(Paths(w, scan.drained), w);
    forall i | 0 <= i < |names| ensures names[i] != f.name {
      assert scan.drained[i] in scan.drained;
    }
  }

  lemma {:induction false} NotListed(w: Name, name: FileName, paths: PathList)
    requires name !in Project(paths, w)
    ensures (w, name) !in paths
  {
    if (w, name) in paths { ProjectHas(paths, w, name); }
  }

  lemma {:induction false} ReadKeepsStuck(s: Sys, order: seq<Name>, limit: nat, maxBytes: nat, w: Name, f: File,
                                          base: seq<Bytes>, from: nat)
    requires Stuck(s, w, f, base, from) && Loose(s, Read(order, limit))
    ensures Stuck(Next(s, Read(order, limit), maxBytes), w, f, base, from)
  {
    hide SplitLines, Chunk, CompleteLength, ReadOne, ReadWriters, Inside, StuckWriter, Torn;
    var pass := ReadWriters(Directories(s), order, s.store.cursor, limit);
    var c, b := PassShare(s, order, s.store.cursor, limit, w);
    if Untouched(w, s.store.cursor, pass) {
      InsideStays(w, f, base, from, s.store.cursor, s.store.events, pass.cursor, pass.events);
      NotListed(w, f.name, pass.drained);
    } else {
      StuckCursor(s, w, f, base, from);
      var offset := s.store.cursor[w].offset;
      ShareOfTorn(WriterOf(s, w), w, f, offset, c, b);
      InsideGoesOn(w, f, base, from, s.store.cursor, s.store.events, b, pass.cursor, pass.events);
      NotListed(w, f.name, pass.drained);
    }
  }

  lemma {:induction false} StuckCursor(s: Sys, w: Name, f: File, base: seq<Bytes>, from: nat)
    requires Stuck(s, w, f, base, from)
    ensures w in s.store.cursor && s.store.cursor[w].inode == f.inode
    ensures s.store.cursor[w].offset <= CompleteLength(f.data)
    ensures DirectoryOf(Directories(s), w) == WriterOf(s, w).files
  {}

  lemma {:induction false} AppendKeepsStuck(s: Sys, step: Step, maxBytes: nat, w: Name, f: File,
                                            base: seq<Bytes>, from: nat)
    requires Stuck(s, w, f, base, from) && step.Append? && Loose(s, step)
    ensures Stuck(Next(s, step, maxBytes), w, f, base, from)
  {
    hide Listed, Inside, Appended;
    if step.w == w {
      var wr := WriterOf(s, w);
      AppendKeepsSealed(wr.files, wr.lastStamp, step.line, maxBytes, step.stamp, step.inode, step.fault, f);
    }
  }

  lemma {:induction false} UnlinkKeepsStuck(s: Sys, k: nat, maxBytes: nat, w: Name, f: File,
                                            base: seq<Bytes>, from: nat)
    requires Stuck(s, w, f, base, from) && Loose(s, Unlink(k))
    ensures Stuck(Next(s, Unlink(k), maxBytes), w, f, base, from)
  {
    hide Listed, Inside, Unlinked;
    var (v, name) := s.pending[k][0];
    assert (v, name) in s.pending[k];
    if v == w {
      UnlinkKeepsSealed(WriterOf(s, w), name, f);
    }
    forall path | path in s.pending[k][1..] ensures path in s.pending[k] {}
  }

  lemma {:induction false} StepKeepsStuck(s: Sys, step: Step, maxBytes: nat, w: Name, f: File,
                                          base: seq<Bytes>, from: nat)
    requires Stuck(s, w, f, base, from) && Loose(s, step)
    ensures Stuck(Next(s, step, maxBytes), w, f, base, from)
  {
    match step {
      case Append(_, _, _, _, _) => AppendKeepsStuck(s, step, maxBytes, w, f, base, from);
      case Read(order, limit) => ReadKeepsStuck(s, order, limit, maxBytes, w, f, base, from);
      case Unlink(k) => UnlinkKeepsStuck(s, k, maxBytes, w, f, base, from);
      case _ => hide Inside, StuckWriter, Torn;
    }
  }

  // ---- Main result ----

  /** Any further steps of writers and control plane, torn writes included. */
  ghost function More(s: Sys, steps: seq<Step>, maxBytes: nat): Option<Sys>
    decreases |steps|
  {
    if steps == [] then Some(s)
    else if !Loose(s, steps[0]) then None
    else More(Next(s, steps[0], maxBytes), steps[1..], maxBytes)
  }

  lemma {:induction false} StaysStuck(s: Sys, steps: seq<Step>, maxBytes: nat, w: Name, f: File,
                                      base: seq<Bytes>, from: nat)
    requires Stuck(s, w, f, base, from) && More(s, steps, maxBytes).Some?
    ensures Stuck(More(s, steps, maxBytes).value, w, f, base, from)
    decreases |steps|
  {
    hide Stuck, Loose;
    if steps != [] {
      StepKeepsStuck(s, steps[0], maxBytes, w, f, base, from);
      StaysStuck(Next(s, steps[0], maxBytes), steps[1..], maxBytes, w, f, base, from);
    }
  }

  /** The committed cursor of a writer stands in a sealed file that ends in a torn line, no pass is
      under way and no list names the file. */
  ghost predicate CursorInTorn(s: Sys, w: Name, f: File) {
    && Torn(f) && Listed(WriterOf(s, w).files, WriterOf(s, w).lastStamp) && f in WriterOf(s, w).files
    && s.pass.None? && (forall k | 0 <= k < |s.pending| :: (w, f.name) !in s.pending[k])
    && w in s.store.cursor && s.store.cursor[w].inode == f.inode
    && s.store.cursor[w].offset <= CompleteLength(f.data)
  }

  /** A sealed file with a torn tail holds its writer back for good: after any further steps, with
      any budgets, failures and torn writes, the file is still there, the cursor still stands in it,
      before the torn line, and nothing was stored but the whole lines of this file up to the cursor.
      No event of a later file is ever delivered. */
  lemma {:induction false} TornFileHoldsBack(s: Sys, steps: seq<Step>, maxBytes: nat, w: Name, f: File)
    requires CursorInTorn(s, w, f) && More(s, steps, maxBytes).Some?
    ensures var t, from := More(s, steps, maxBytes).value, s.store.cursor[w].offset;
            && f in WriterOf(t, w).files
            && w in t.store.cursor && t.store.cursor[w].inode == f.inode
            && from <= t.store.cursor[w].offset <= CompleteLength(f.data) < |f.data|
            && Stored(t, w) == Stored(s, w) + SplitLines(f.data[from..t.store.cursor[w].offset])
  {
    var from := s.store.cursor[w].offset;
    assert f.data[from..from] == [];
    ConcatNothing(Stored(s, w));
    StaysStuck(s, steps, maxBytes, w, f, Stored(s, w), from);
  }
}
