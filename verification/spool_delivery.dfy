/** One writer's directory with the history of what was appended to it.

    Rotation, creation and appending keep every recorded position meaningful; a read pass
    delivers exactly the next events that fit its byte budget; and unlinking the oldest file
    disturbs nothing once its events were consumed.  SpoolSystem puts these steps of one writer
    together with commits, crashes and other writers. */
module SpoolDelivery {
  import opened Sequences
  import opened Wrappers
  import opened Spool
  import opened SpoolWriter

  /** files is the disk.  The rest is history: every event appended, the events of unlinked
      files, and the events in each file still present. */
  datatype Writer = Writer(files: Directory, lastStamp: nat, appended: seq<Line>, gone: seq<Line>, kept: seq<seq<Line>>)

  const NEW_WRITER := Writer([], 0, [], [], [])

  ghost predicate Listed(files: Directory, lastStamp: nat) {
    && (forall i | 0 <= i < |files| - 1 :: files[i].name.Stamped?)
    && (forall i | 0 <= i < |files| && files[i].name.Stamped? :: files[i].name.stamp <= lastStamp)
    && (forall i, j | 0 <= i < j < |files| && files[j].name.Stamped? :: files[i].name.stamp < files[j].name.stamp)
    && (forall i, j | 0 <= i < j < |files| :: files[i].inode != files[j].inode)
  }

  ghost predicate Holds(files: Directory, kept: seq<seq<Line>>) {
    |files| == |kept| && forall i | 0 <= i < |files| :: files[i].data == Flat(kept[i])
  }

  ghost predicate Valid(wr: Writer) {
    && Listed(wr.files, wr.lastStamp)
    && Holds(wr.files, wr.kept)
    && wr.appended == wr.gone + Flatten(wr.kept)
  }

  /** The events before file i. */
  ghost function Before(wr: Writer, i: nat): nat
    requires i <= |wr.kept|
  {
    |wr.gone| + |Flatten(wr.kept[..i])|
  }

  /** The cursor stands exactly after the first n appended events, in a file that exists. */
  ghost predicate At(wr: Writer, position: Option<Position>, n: nat) {
    match position
    case None => n == 0 && wr.gone == []
    case Some(p) =>
      var i := Locate(wr.files, p.inode);
      && i < |wr.files| == |wr.kept|
      && Before(wr, i) <= n <= Before(wr, i) + |wr.kept[i]|
      && p.offset == |Flat(wr.kept[i][..n - Before(wr, i)])|
  }

  /** The index of the file at which the cursor stands; 0 when it stands nowhere yet. */
  function Cut(wr: Writer, position: Option<Position>): (i: nat)
    ensures i < |wr.files| || i == 0
  {
    Start(wr.files, position).0
  }

  /** A name of an unlinked file, which no later file gets. */
  predicate Dead(wr: Writer, name: FileName) {
    name.Stamped? && name.stamp <= wr.lastStamp && IndexOfName(wr.files, name) == |wr.files|
  }

  function IndexOfName(files: Directory, name: FileName): (i: nat)
    ensures i <= |files|
    ensures i < |files| ==> files[i].name == name
    ensures forall j | 0 <= j < i :: files[j].name != name
  {
    if files == [] || files[0].name == name then 0
    else
      assert files == [files[0]] + files[1..];
      1 + IndexOfName(files[1..], name)
  }

  /** A list of paths to unlink: the first g are gone already, the others name the oldest files in
      their order, all before file limit. */
  ghost predicate Removes(wr: Writer, limit: nat, names: seq<FileName>, g: nat) {
    && g <= |names| <= g + limit && limit <= |wr.files|
    && (forall i | 0 <= i < g :: Dead(wr, names[i]))
    && (forall i | g <= i < |names| :: names[i] == wr.files[i - g].name && names[i].Stamped?)
  }

  ghost predicate Removable(wr: Writer, limit: nat, names: seq<FileName>) {
    exists g: nat :: Removes(wr, limit, names, g)
  }

  // ---- Reading ----

  ghost predicate Fits(lines: seq<Line>, budget: nat) { lines != [] && |lines[0]| + 1 <= budget }

  lemma {:induction false} FittingIsPositive(lines: seq<Line>, budget: nat)
    ensures Fitting(lines, budget) > 0 <==> Fits(lines, budget)
  {}

  /** One file read from a line boundary: the events are the following lines that fit, and the
      new offset is again a line boundary. */
  lemma {:induction false} ReadOneFile(f: File, lines: seq<Line>, k: nat, budget: nat)
    requires k <= |lines| && f.data == Flat(lines)
    ensures var chunk := Chunk(f, |Flat(lines[..k])|, budget);
            var m := Fitting(lines[k..], budget);
            && k + m <= |lines|
            && SplitLines(chunk) == lines[k..k + m]
            && |Flat(lines[..k])| + |chunk| == |Flat(lines[..k + m])|
  {
    hide Chunk, Fitting, SplitLines, Flat;
    var m := Fitting(lines[k..], budget);
    TakeMore(lines, k, m);
    ChunkIsLines(f, lines, k, budget);
    SplitLinesOfFlat(lines[k..k + m]);
    FlatLengths(lines[..k], lines[k..k + m]);
  }

  lemma {:induction false} ChunkIsLines(f: File, lines: seq<Line>, k: nat, budget: nat)
    requires k <= |lines| && f.data == Flat(lines)
    ensures Chunk(f, |Flat(lines[..k])|, budget) == Flat(lines[k..][..Fitting(lines[k..], budget)])
  {
    hide Fitting, Flat, CompleteLength;
    FlatTakeLength(lines, k);
    CutKeepsWholeLines(lines[k..], budget);
  }

  lemma {:induction false} FlatLengths(a: seq<Line>, b: seq<Line>)
    ensures |Flat(a + b)| == |Flat(a)| + |Flat(b)|
  {
    FlatConcat(a, b);
  }

  /** What a scan from event k of file i must have done when it stops at event k' of file
      r.index: everything in between was delivered, and nothing is delivered only when the next
      event does not fit. */
  ghost predicate Delivered(files: Directory, kept: seq<seq<Line>>, i: nat, k: nat, budget: nat, r: Scan, k': nat)
    requires |files| == |kept| && i < |files| && k <= |kept[i]|
  {
    && i <= r.index < |files| && k' <= |kept[r.index]|
    && r.offset == |Flat(kept[r.index][..k'])|
    && r.drained == files[i..r.index]
    && kept[i][..k] + r.events == Flatten(kept[i..r.index]) + kept[r.index][..k']
    && (r.events == [] <==> !Fits(kept[i][k..] + Flatten(kept[i + 1..]), budget))
    && (r.events == [] ==> r.budget == budget)
  }

  lemma {:induction false} ScanDelivers(files: Directory, kept: seq<seq<Line>>, i: nat, k: nat, budget: nat)
    returns (k': nat)
    requires Holds(files, kept) && i < |files| && k <= |kept[i]|
    requires forall j | 0 <= j < |files| - 1 :: files[j].name.Stamped?
    ensures Delivered(files, kept, i, k, budget, ScanFrom(files, i, |Flat(kept[i][..k])|, budget), k')
    decreases |files| - i
  {
    hide Chunk, SplitLines, Fitting, ScanFrom, Delivered;
    var scan := ScanFrom(files, i, |Flat(kept[i][..k])|, budget);
    var m, left, events, goesOn := ScanFile(files, kept, i, k, budget, scan);
    if goesOn {
      assert kept[i + 1][..0] == [];
      var rest := ScanFrom(files, i + 1, 0, left);
      k' := ScanDelivers(files, kept, i + 1, 0, left);
      LeadsToFields(scan, events, [files[i]], rest);
      ScanContinues(files, kept, i, k, m, budget, left, scan, rest, k');
    } else {
      k' := k + m;
      ScanStops(files, kept, i, k, m, budget, scan);
    }
  }

  lemma {:induction false} LeadsToFields(whole: Scan, events: seq<Bytes>, drained: seq<File>, rest: Scan)
    requires LeadsTo(whole, events, drained, rest)
    ensures whole.events == events + rest.events && whole.drained == drained + rest.drained
    ensures whole.index == rest.index && whole.offset == rest.offset && whole.budget == rest.budget
  {}

  /** One file of a scan: it delivers the events from k on that fit, and goes on to the next file
      when these are all. */
  lemma {:induction false} ScanFile(files: Directory, kept: seq<seq<Line>>, i: nat, k: nat, budget: nat, scan: Scan)
    returns (m: nat, left: nat, events: seq<Bytes>, goesOn: bool)
    requires Holds(files, kept) && i < |files| && k <= |kept[i]|
    requires forall j | 0 <= j < |files| - 1 :: files[j].name.Stamped?
    requires scan == ScanFrom(files, i, |Flat(kept[i][..k])|, budget)
    ensures m == Fitting(kept[i][k..], budget) && k + m <= |kept[i]| && (m == 0 ==> left == budget)
    ensures events == kept[i][k..k + m]
    ensures goesOn <==> i + 1 < |files| && k + m == |kept[i]|
    ensures goesOn ==> LeadsTo(scan, events, [files[i]], ScanFrom(files, i + 1, 0, left))
    ensures !goesOn ==> Ends(scan, events, i, |Flat(kept[i][..k + m])|, [], left)
  {
    hide Chunk, SplitLines, Fitting, Flat, LeadsTo, Ends, ScanFrom;
    var offset := |Flat(kept[i][..k])|;
    var chunk := Chunk(files[i], offset, budget);
    ReadOfFile(files, kept, i, k, budget);
    m := Fitting(kept[i][k..], budget);
    left, events := budget - |chunk|, SplitLines(chunk);
    goesOn := Passes(files, i, offset + |chunk|);
    ScanUnfolds(files, i, offset, budget);
  }

  lemma {:induction false} ReadOfFile(files: Directory, kept: seq<seq<Line>>, i: nat, k: nat, budget: nat)
    requires Holds(files, kept) && i < |files| && k <= |kept[i]|
    requires forall j | 0 <= j < |files| - 1 :: files[j].name.Stamped?
    ensures var chunk := Chunk(files[i], |Flat(kept[i][..k])|, budget);
            var m := Fitting(kept[i][k..], budget);
            && k + m <= |kept[i]| && (m == 0 ==> |chunk| == 0)
            && SplitLines(chunk) == kept[i][k..k + m]
            && |Flat(kept[i][..k])| + |chunk| == |Flat(kept[i][..k + m])|
            && (Passes(files, i, |Flat(kept[i][..k + m])|) <==> i + 1 < |files| && k + m == |kept[i]|)
  {
    hide Chunk, SplitLines, Fitting, Flat, Passes;
    var m := Fitting(kept[i][k..], budget);
    ReadOneFile(files[i], kept[i], k, budget);
    NothingRead(files[i], |Flat(kept[i][..k])|, budget, kept[i], k, m);
    ReadWholeIff(files[i], kept[i], k + m);
    PassesIff(files, i, |Flat(kept[i][..k + m])|);
  }

  lemma {:induction false} NothingRead(f: File, offset: nat, budget: nat, lines: seq<Line>, k: nat, m: nat)
    requires k + m <= |lines| && offset == |Flat(lines[..k])|
    requires offset + |Chunk(f, offset, budget)| == |Flat(lines[..k + m])|
    ensures m == 0 ==> |Chunk(f, offset, budget)| == 0
  {}

  lemma {:induction false} PassesIff(files: Directory, i: nat, offset: nat)
    requires i < |files| && forall j | 0 <= j < |files| - 1 :: files[j].name.Stamped?
    ensures Passes(files, i, offset) <==> i + 1 < |files| && offset >= |files[i].data|
  {}

  lemma {:induction false} ReadWholeIff(f: File, lines: seq<Line>, n: nat)
    requires f.data == Flat(lines) && n <= |lines|
    ensures |Flat(lines[..n])| >= |f.data| <==> n == |lines|
  {
    FlatTakeLength(lines, n);
    if n == |lines| { assert lines[..n] == lines; }
  }

  lemma {:induction false} ScanStops(files: Directory, kept: seq<seq<Line>>, i: nat, k: nat, m: nat, budget: nat,
                                     scan: Scan)
    requires |files| == |kept| && i < |files| && k + m <= |kept[i]| && m == Fitting(kept[i][k..], budget)
    requires i + 1 == |files| || k + m < |kept[i]|
    requires scan.events == kept[i][k..k + m] && scan.index == i && scan.offset == |Flat(kept[i][..k + m])|
    requires scan.drained == [] && (m == 0 ==> scan.budget == budget)
    ensures Delivered(files, kept, i, k, budget, scan, k + m)
  {
    FittingIsPositive(kept[i][k..], budget);
    assert files[i..i] == [] && kept[i..i] == [];
    assert kept[i][..k] + kept[i][k..k + m] == kept[i][..k + m];
    if i + 1 == |files| {
      assert kept[i + 1..] == [];
      assert kept[i][k..] + Flatten(kept[i + 1..]) == kept[i][k..];
    }
  }

  /** Moving from file i, fully read, to file i + 1. */
  lemma {:induction false} ScanContinues(files: Directory, kept: seq<seq<Line>>, i: nat, k: nat, m: nat, budget: nat,
                                         left: nat, scan: Scan, rest: Scan, k': nat)
    requires |files| == |kept| && i + 1 < |files| && k + m == |kept[i]| && m == Fitting(kept[i][k..], budget)
    requires m == 0 ==> left == budget
    requires Delivered(files, kept, i + 1, 0, left, rest, k')
    requires scan.events == kept[i][k..k + m] + rest.events && scan.drained == [files[i]] + rest.drained
    requires scan.index == rest.index && scan.offset == rest.offset && scan.budget == rest.budget
    ensures Delivered(files, kept, i, k, budget, scan, k')
  {
    FittingIsPositive(kept[i][k..], budget);
    assert kept[i + 1][..0] + rest.events == rest.events;
    assert kept[i..rest.index][1..] == kept[i + 1..rest.index];
    assert kept[i][..k] + kept[i][k..k + m] == kept[i];
    Associate(kept[i][..k], kept[i][k..k + m], rest.events);
    Associate(kept[i], Flatten(kept[i + 1..rest.index]), kept[rest.index][..k']);
    assert [files[i]] + files[i + 1..rest.index] == files[i..rest.index];
    if m == 0 {
      assert kept[i][k..] == [];
      assert kept[i + 1..][1..] == kept[i + 2..];
      assert kept[i + 1][0..] == kept[i + 1];
      assert kept[i][k..] + Flatten(kept[i + 1..]) == Flatten(kept[i + 1..]);
    }
  }

  /** What reading one writer does when its cursor stands after n events: the next events, in
      order and without a gap, a cursor after them, and only files before the cursor listed as
      drained; no event only if the next one does not fit. */
  ghost predicate Reads(wr: Writer, n: nat, budget: nat, r: Scan) {
    var n' := n + |r.events|;
    && r.index < |wr.files| && n' <= |wr.appended|
    && r.events == wr.appended[n..n']
    && At(wr, Some(Position(wr.files[r.index].inode, r.offset)), n')
    && r.drained == wr.files[..r.index]
    && (r.events == [] <==> !Fits(wr.appended[n..], budget))
    && (r.events == [] ==> r.budget == budget)
  }

  /** A pass over one writer, from a cursor that stands after n events. */
  lemma {:induction false} WriterDelivers(wr: Writer, position: Option<Position>, n: nat, budget: nat)
    requires Valid(wr) && At(wr, position, n) && wr.files != []
    ensures Reads(wr, n, budget, ReadWriter(wr.files, position, budget))
  {
    hide ReadWriter, ScanFrom, Start, Valid, At, Flat, Fits;
    var i, k := StartsAt(wr, position, n);
    ReadUnfolds(wr, position, i, |Flat(wr.kept[i][..k])|, budget);
    ScanInHistory(wr, i, k, budget);
  }

  lemma {:induction false} ScanInHistory(wr: Writer, i: nat, k: nat, budget: nat)
    requires Valid(wr) && i < |wr.kept| && k <= |wr.kept[i]|
    ensures var scan := ScanFrom(wr.files, i, |Flat(wr.kept[i][..k])|, budget);
            Reads(wr, Before(wr, i) + k, budget, scan.(drained := wr.files[..i] + scan.drained))
  {
    hide Chunk, SplitLines, Fitting, ScanFrom, Flat, Fits;
    var scan := ScanFrom(wr.files, i, |Flat(wr.kept[i][..k])|, budget);
    var k' := ScanDelivers(wr.files, wr.kept, i, k, budget);
    SplitHistory(wr, i, k);
    SpanHistory(wr, i, k, scan.index, k', scan.events);
    StandsAt(wr, scan.index, k');
    JoinFiles(wr.files, i, scan.index);
  }

  lemma {:induction false} JoinFiles(files: Directory, i: nat, j: nat)
    requires i <= j <= |files|
    ensures files[..i] + files[i..j] == files[..j]
  {}

  lemma {:induction false} StandsAt(wr: Writer, j: nat, k: nat)
    requires Valid(wr) && j < |wr.kept| && k <= |wr.kept[j]|
    ensures At(wr, Some(Position(wr.files[j].inode, |Flat(wr.kept[j][..k])|)), Before(wr, j) + k)
  {
    LocateFile(wr.files, wr.lastStamp, j);
  }

  lemma {:induction false} ReadUnfolds(wr: Writer, position: Option<Position>, i: nat, offset: nat, budget: nat)
    requires i < |wr.files| && Start(wr.files, position) == (i, offset)
    ensures var r, scan := ReadWriter(wr.files, position, budget), ScanFrom(wr.files, i, offset, budget);
            r == scan.(drained := wr.files[..i] + scan.drained)
  {
    var scan := ScanFrom(wr.files, i, offset, budget);
    NothingConcat(scan.events);
  }

  lemma {:induction false} StartsAt(wr: Writer, position: Option<Position>, n: nat) returns (i: nat, k: nat)
    requires Valid(wr) && At(wr, position, n) && wr.files != []
    ensures i < |wr.kept| && k <= |wr.kept[i]| && n == Before(wr, i) + k
    ensures Start(wr.files, position) == (i, |Flat(wr.kept[i][..k])|)
  {
    i := Start(wr.files, position).0;
    assert wr.kept[..0] == [] && wr.kept[0][..0] == [];
    k := n - Before(wr, i);
  }

  /** What lies between event k of file i and event k' of file j. */
  lemma {:induction false} SpanHistory(wr: Writer, i: nat, k: nat, j: nat, k': nat, events: seq<Bytes>)
    requires Valid(wr) && i <= j < |wr.kept| && k <= |wr.kept[i]| && k' <= |wr.kept[j]|
    requires wr.kept[i][..k] + events == Flatten(wr.kept[i..j]) + wr.kept[j][..k']
    ensures var n := Before(wr, i) + k;
            && n + |events| == Before(wr, j) + k' <= |wr.appended|
            && events == wr.appended[n..n + |events|]
  {
    SplitHistory(wr, i, k);
    SplitHistory(wr, j, k');
    assert wr.kept[..i] + wr.kept[i..j] == wr.kept[..j];
    FlattenConcat(wr.kept[..i], wr.kept[i..j]);
    var head := wr.gone + Flatten(wr.kept[..i]);
    Associate(wr.gone, Flatten(wr.kept[..i]), Flatten(wr.kept[i..j]));
    Associate(head, Flatten(wr.kept[i..j]), wr.kept[j][..k']);
    Associate(head, wr.kept[i][..k], events);
    Between(wr.appended, head + wr.kept[i][..k], events);
  }

  lemma {:induction false} Between<T>(whole: seq<T>, left: seq<T>, middle: seq<T>)
    requires |left| + |middle| <= |whole| && whole[..|left| + |middle|] == left + middle
    ensures whole[|left|..|left| + |middle|] == middle
  {
    assert whole[..|left| + |middle|][|left|..] == middle;
  }

  lemma {:induction false} SplitHistory(wr: Writer, i: nat, k: nat)
    requires Valid(wr) && i < |wr.kept| && k <= |wr.kept[i]|
    ensures var n := Before(wr, i) + k;
            && n <= |wr.appended|
            && wr.appended[..n] == wr.gone + Flatten(wr.kept[..i]) + wr.kept[i][..k]
            && wr.appended[n..] == wr.kept[i][k..] + Flatten(wr.kept[i + 1..])
  {
    assert wr.kept == wr.kept[..i] + wr.kept[i..];
    FlattenConcat(wr.kept[..i], wr.kept[i..]);
    assert wr.kept[i..][1..] == wr.kept[i + 1..];
    SplitInside(wr.gone, Flatten(wr.kept[..i]), wr.kept[i], Flatten(wr.kept[i + 1..]), k);
  }

  lemma {:induction false} SplitInside<T>(a: seq<T>, b: seq<T>, c: seq<T>, d: seq<T>, k: nat)
    requires k <= |c|
    ensures (a + (b + (c + d)))[..|a| + |b| + k] == a + b + c[..k]
    ensures (a + (b + (c + d)))[|a| + |b| + k..] == c[k..] + d
  {}

  lemma {:induction false} LocateFile(files: Directory, lastStamp: nat, i: nat)
    requires Listed(files, lastStamp) && i < |files|
    ensures Locate(files, files[i].inode) == i
  {}

  // ---- Appending ----

  /** A later state of the same writer in which no file was unlinked. */
  ghost predicate Extends(wr: Writer, wr': Writer) {
    && |wr.files| == |wr.kept| <= |wr'.files| == |wr'.kept|
    && wr'.gone == wr.gone
    && wr.appended <= wr'.appended
    && (forall i | 0 <= i < |wr.files| :: wr'.files[i].inode == wr.files[i].inode && wr.kept[i] <= wr'.kept[i])
    && (forall i | 0 <= i < |wr.files| - 1 :: wr'.files[i] == wr.files[i] && wr'.kept[i] == wr.kept[i])
  }

  /** Appends and rotations never disturb a cursor. */
  lemma {:induction false} AtIsStable(wr: Writer, wr': Writer, position: Option<Position>, n: nat)
    requires Valid(wr) && Extends(wr, wr') && At(wr, position, n)
    ensures At(wr', position, n)
  {
    if position.Some? {
      var i := Locate(wr.files, position.value.inode);
      LocateUnchanged(wr.files, wr'.files, position.value.inode);
      assert wr'.kept[..i] == wr.kept[..i];
      var k := n - Before(wr, i);
      assert wr'.kept[i][..k] == wr.kept[i][..k];
    }
  }

  lemma {:induction false} LocateUnchanged(files: Directory, files': Directory, inode: nat)
    requires |files| <= |files'| && Locate(files, inode) < |files|
    requires forall i | 0 <= i < |files| :: files'[i].inode == files[i].inode
    ensures Locate(files', inode) == Locate(files, inode)
  {}

  lemma {:induction false} CutIsStable(wr: Writer, wr': Writer, position: Option<Position>, n: nat)
    requires Extends(wr, wr') && At(wr, position, n)
    ensures Cut(wr', position) == Cut(wr, position)
  {
    if position.Some? {
      LocateUnchanged(wr.files, wr'.files, position.value.inode);
    }
  }

  /** No later file has the name of an earlier one, unless it is that file. */
  ghost predicate KeepsNames(wr: Writer, wr': Writer) {
    && wr.lastStamp <= wr'.lastStamp
    && (forall i | 0 <= i < |wr'.files| && wr'.files[i].name.Stamped? && wr'.files[i].name.stamp <= wr.lastStamp ::
          i < |wr.files| && wr'.files[i].name == wr.files[i].name)
  }

  lemma {:induction false} RemovableIsStable(wr: Writer, wr': Writer, limit: nat, names: seq<FileName>)
    requires Valid(wr) && Extends(wr, wr') && KeepsNames(wr, wr') && Removable(wr, limit, names)
    requires limit < |wr.files| || limit == 0
    ensures Removable(wr', limit, names)
  {
    hide Holds, Flatten, Listed;
    var g: nat :| Removes(wr, limit, names, g);
    forall i | 0 <= i < g ensures Dead(wr', names[i]) {
      assert Dead(wr, names[i]);
    }
    assert Removes(wr', limit, names, g);
  }

  /** With a stamp above all earlier ones the renamed file stays where it was in the listing. */
  lemma {:induction false} PlacedLast(files: Directory, f: File)
    requires f.name.Stamped?
    requires forall i | 0 <= i < |files| :: files[i].name.Stamped? && files[i].name.stamp < f.name.stamp
    ensures Place(files, f) == files + [f]
  {
    if files != [] {
      PlacedLast(files[1..], f);
    }
  }

  /** Does the append get as far as an open file? */
  predicate Begins(wr: Writer, line: Line, maxBytes: nat, fault: Fault) {
    !fault.OpenFault? && !(fault.RotateFault? && MustRotate(wr.files, line, maxBytes))
  }

  /** A sound history that goes on from an earlier one. */
  ghost predicate Grows(wr: Writer, wr': Writer) { Valid(wr') && Extends(wr, wr') }

  /** What an append does to the history. */
  function AppendStep(wr: Writer, line: Line, maxBytes: nat, stamp: nat, inode: nat, fault: Fault): Writer {
    var files := Appended(wr.files, line, maxBytes, stamp, inode, fault);
    var kept := if |files| > |wr.files| then wr.kept + [[]] else wr.kept;
    if Begins(wr, line, maxBytes, fault) && !(fault.ShortWrite? && fault.n <= |line|) && kept != [] then
      Writer(files, stamp, wr.appended + [line], wr.gone, kept[|kept| - 1 := kept[|kept| - 1] + [line]])
    else
      Writer(files, stamp, wr.appended, wr.gone, kept)
  }

  /** The assumptions on one append: the clock moved on since the last one, a new file gets an
      inode no present file has, and the line is written whole or not at all. */
  ghost predicate Sound(wr: Writer, line: Line, stamp: nat, inode: nat, fault: Fault) {
    && wr.lastStamp < stamp
    && (forall i | 0 <= i < |wr.files| :: wr.files[i].inode != inode)
    && (fault.ShortWrite? ==> fault.n == 0 || fault.n > |line|)
  }

  lemma {:induction false} RotationKeepsFiles(wr: Writer, line: Line, maxBytes: nat, stamp: nat)
    requires Valid(wr) && wr.lastStamp < stamp
    ensures var rotated := RotateStep(wr, line, maxBytes, stamp);
            && Grows(wr, rotated)
            && (MustRotate(wr.files, line, maxBytes) ==> !HasActive(rotated.files))
  {
    hide Place, Flatten, Flat;
    if MustRotate(wr.files, line, maxBytes) {
      var last := |wr.files| - 1;
      PlacedLast(wr.files[..last], wr.files[last].(name := Stamped(stamp)));
    }
  }

  lemma {:induction false} AppendKeeps(wr: Writer, line: Line, maxBytes: nat, stamp: nat, inode: nat, fault: Fault)
    requires Valid(wr) && Sound(wr, line, stamp, inode, fault)
    ensures Grows(wr, AppendStep(wr, line, maxBytes, stamp, inode, fault))
  {
    var rotated := RotateStep(wr, line, maxBytes, stamp);
    RotationKeepsFiles(wr, line, maxBytes, stamp);
    if Begins(wr, line, maxBytes, fault) {
      var before := OpenStep(rotated, inode);
      OpenKeeps(rotated, inode);
      GrowsTwice(wr, rotated, before);
      if fault.ShortWrite? && fault.n <= |line| {
        AppendWithoutWrite(wr, line, maxBytes, stamp, inode, fault);
      } else {
        AppendWithWrite(wr, line, maxBytes, stamp, inode, fault);
        WriteKeeps(before, line);
        GrowsTwice(wr, before, WriteStep(before, line));
      }
    } else {
      StoppedAppend(wr, line, maxBytes, stamp, inode, fault);
    }
  }

  lemma {:induction false} AppendKeepsNames(wr: Writer, line: Line, maxBytes: nat, stamp: nat, inode: nat, fault: Fault)
    requires Valid(wr) && Sound(wr, line, stamp, inode, fault)
    ensures KeepsNames(wr, AppendStep(wr, line, maxBytes, stamp, inode, fault))
  {
    hide Place, Holds, Flatten;
    if MustRotate(wr.files, line, maxBytes) {
      var last := |wr.files| - 1;
      PlacedLast(wr.files[..last], wr.files[last].(name := Stamped(stamp)));
    }
  }

  /** An append that fails at the rotation or at the open leaves the history as it was. */
  lemma {:induction false} StoppedAppend(wr: Writer, line: Line, maxBytes: nat, stamp: nat, inode: nat, fault: Fault)
    requires Valid(wr) && wr.lastStamp < stamp && !Begins(wr, line, maxBytes, fault)
    ensures Grows(wr, AppendStep(wr, line, maxBytes, stamp, inode, fault))
  {
    RotationKeepsFiles(wr, line, maxBytes, stamp);
    if !fault.RotateFault? {
      assert AppendStep(wr, line, maxBytes, stamp, inode, fault) == RotateStep(wr, line, maxBytes, stamp);
    }
  }

  lemma {:induction false} GrowsTwice(a: Writer, b: Writer, c: Writer)
    requires Grows(a, b) && Grows(b, c)
    ensures Grows(a, c)
  {
    ExtendsTransitive(a, b, c);
  }

  lemma {:induction false} ExtendsTransitive(a: Writer, b: Writer, c: Writer)
    requires Extends(a, b) && Extends(b, c)
    ensures Extends(a, c)
  {
    forall i | 0 <= i < |a.files| - 1
      ensures c.files[i] == a.files[i] && c.kept[i] == a.kept[i]
    {
      assert b.files[i] == a.files[i];
    }
  }

  lemma {:induction false} WritingNothing(files: Directory)
    requires HasActive(files)
    ensures Written(files, []) == files
  {
    var last := |files| - 1;
    ConcatNothing(files[last].data);
  }

  /** The writer after the rotation, if any. */
  function RotateStep(wr: Writer, line: Line, maxBytes: nat, stamp: nat): Writer {
    wr.(files := Rotated(wr.files, line, maxBytes, stamp), lastStamp := stamp)
  }

  /** Past the rotation, an append is an open and, unless nothing reached the file, a write. */
  lemma {:induction false} AppendWithoutWrite(wr: Writer, line: Line, maxBytes: nat, stamp: nat, inode: nat,
                                              fault: Fault)
    requires Valid(wr) && Sound(wr, line, stamp, inode, fault) && Begins(wr, line, maxBytes, fault)
    requires fault.ShortWrite? && fault.n <= |line|
    ensures AppendStep(wr, line, maxBytes, stamp, inode, fault) ==
            OpenStep(RotateStep(wr, line, maxBytes, stamp), inode)
  {
    RotationKeepsFiles(wr, line, maxBytes, stamp);
    var before := OpenStep(RotateStep(wr, line, maxBytes, stamp), inode);
    assert Take(line + [NEWLINE], 0) == [];
    WritingNothing(before.files);
  }

  lemma {:induction false} AppendWithWrite(wr: Writer, line: Line, maxBytes: nat, stamp: nat, inode: nat, fault: Fault)
    requires Valid(wr) && Sound(wr, line, stamp, inode, fault) && Begins(wr, line, maxBytes, fault)
    requires !(fault.ShortWrite? && fault.n <= |line|)
    ensures var before := OpenStep(RotateStep(wr, line, maxBytes, stamp), inode);
            && |before.kept| == |before.files|
            && AppendStep(wr, line, maxBytes, stamp, inode, fault) == WriteStep(before, line)
  {
    hide Place, Flat, Flatten, Listed;
    RotationKeepsFiles(wr, line, maxBytes, stamp);
    if fault.ShortWrite? { assert Take(line + [NEWLINE], fault.n) == line + [NEWLINE]; }
  }

  function OpenStep(wr: Writer, inode: nat): Writer {
    wr.(files := Opened(wr.files, inode), kept := if HasActive(wr.files) then wr.kept else wr.kept + [[]])
  }

  lemma {:induction false} OpenKeeps(wr: Writer, inode: nat)
    requires Valid(wr) && forall i | 0 <= i < |wr.files| :: wr.files[i].inode != inode
    requires !HasActive(wr.files) ==> forall i | 0 <= i < |wr.files| :: wr.files[i].name.Stamped?
    ensures Grows(wr, OpenStep(wr, inode))
  {
    if !HasActive(wr.files) {
      FlattenNothing(wr.kept);
      OpenKeepsFiles(wr.files, wr.lastStamp, wr.kept, inode);
      hide Listed, Holds, Flatten;
    }
  }

  lemma {:induction false} FlattenNothing(kept: seq<seq<Line>>)
    ensures Flatten(kept + [[]]) == Flatten(kept)
  {
    FlattenConcat(kept, [[]]);
    ConcatNothing(Flatten(kept));
    assert Flatten([[]]) == [];
  }

  lemma {:induction false} OpenKeepsFiles(files: Directory, lastStamp: nat, kept: seq<seq<Line>>, inode: nat)
    requires Listed(files, lastStamp) && Holds(files, kept) && !HasActive(files)
    requires forall i | 0 <= i < |files| :: files[i].name.Stamped? && files[i].inode != inode
    ensures Listed(Opened(files, inode), lastStamp) && Holds(Opened(files, inode), kept + [[]])
  {
    hide Flatten;
  }

  function WriteStep(wr: Writer, line: Line): Writer
    requires HasActive(wr.files) && |wr.kept| == |wr.files|
  {
    wr.(files := Written(wr.files, line + [NEWLINE]), appended := wr.appended + [line],
        kept := Extended(wr.kept, line))
  }

  lemma {:induction false} WriteKeeps(wr: Writer, line: Line)
    requires Valid(wr) && HasActive(wr.files)
    ensures Grows(wr, WriteStep(wr, line))
  {
    FlattenLast(wr.kept, line);
    Associate(wr.gone, Flatten(wr.kept), [line]);
    WriteKeepsFiles(wr.files, wr.lastStamp, wr.kept, line);
    hide Listed, Holds, Flatten;
  }

  /** One more line at the end of the last file. */
  function Extended(kept: seq<seq<Line>>, line: Line): seq<seq<Line>>
    requires kept != []
  {
    kept[|kept| - 1 := kept[|kept| - 1] + [line]]
  }

  lemma {:induction false} FlattenLast(kept: seq<seq<Line>>, line: Line)
    requires kept != []
    ensures Flatten(Extended(kept, line)) == Flatten(kept) + [line]
  {
    if |kept| == 1 {
      assert Extended(kept, line)[1..] == [] && kept[1..] == [];
    } else {
      FlattenLast(kept[1..], line);
      assert Extended(kept, line)[1..] == Extended(kept[1..], line);
      Associate(kept[0], Flatten(kept[1..]), [line]);
    }
  }

  lemma {:induction false} WriteKeepsFiles(files: Directory, lastStamp: nat, kept: seq<seq<Line>>, line: Line)
    requires Listed(files, lastStamp) && Holds(files, kept) && HasActive(files)
    ensures Listed(Written(files, line + [NEWLINE]), lastStamp)
    ensures Holds(Written(files, line + [NEWLINE]), Extended(kept, line))
  {
    hide Flatten;
    FlatLast(kept[|kept| - 1], line);
    hide Flat;
  }

  lemma {:induction false} FlatLast(lines: seq<Line>, line: Line)
    ensures Flat(lines + [line]) == Flat(lines) + (line + [NEWLINE])
  {
    FlatConcat(lines, [line]);
    ConcatNothing(line + [NEWLINE]);
  }

  // ---- Unlinking ----

  /** Removing the oldest file; its events move to the history of unlinked ones. */
  function UnlinkStep(wr: Writer): Writer
    requires wr.files != [] && wr.kept != []
  {
    wr.(files := wr.files[1..], gone := wr.gone + wr.kept[0], kept := wr.kept[1..])
  }

  /** Unlinking the oldest file keeps a later cursor where it was, and every event of the file had
      been consumed. */
  lemma {:induction false} UnlinkKeeps(wr: Writer, position: Option<Position>, n: nat)
    requires Valid(wr) && At(wr, position, n) && Cut(wr, position) > 0
    ensures wr.files != [] && wr.kept != []
    ensures var wr' := UnlinkStep(wr);
            && Valid(wr') && At(wr', position, n) && Cut(wr', position) == Cut(wr, position) - 1
            && |wr'.gone| <= n
  {
    var i := Locate(wr.files, position.value.inode);
    var wr' := UnlinkStep(wr);
    assert wr.kept[..i][1..] == wr'.kept[..i - 1];
    assert Flatten(wr.kept[..i]) == wr.kept[0] + Flatten(wr'.kept[..i - 1]);
    assert wr'.kept[i - 1] == wr.kept[i];
    assert wr.appended == wr'.gone + Flatten(wr'.kept);
  }

  /** path.unlink(missing_ok=True).  The history of unlinked events stays a prefix only if the
      oldest file is the one removed; ListHead shows that it always is. */
  function Unlinked(wr: Writer, name: FileName): Writer {
    var i := IndexOfName(wr.files, name);
    if i == |wr.files| then wr
    else if i == 0 && wr.kept != [] then UnlinkStep(wr)
    else wr.(files := wr.files[..i] + wr.files[i + 1..])
  }

  /** The first path of a list is missing, or the oldest file. */
  lemma {:induction false} ListHead(wr: Writer, limit: nat, names: seq<FileName>)
    requires Valid(wr) && Removable(wr, limit, names) && names != []
    ensures IndexOfName(wr.files, names[0]) == |wr.files| ||
              (limit > 0 && wr.kept != [] && IndexOfName(wr.files, names[0]) == 0 && names[0].Stamped?)
  {
    var g: nat :| Removes(wr, limit, names, g);
    assert g > 0 ==> Dead(wr, names[0]);
  }

  /** Removing the oldest file advances every list... */
  lemma {:induction false} UnlinkKeepsList(wr: Writer, limit: nat, names: seq<FileName>)
    requires Valid(wr) && wr.files != [] && wr.kept != [] && limit > 0 && Removable(wr, limit, names)
    requires wr.files[0].name.Stamped?
    ensures Removable(UnlinkStep(wr), limit - 1, names)
  {
    hide Holds, Flatten;
    var wr' := UnlinkStep(wr);
    var g: nat :| Removes(wr, limit, names, g);
    FirstNameDies(wr);
    forall i | 0 <= i < g ensures Dead(wr', names[i]) {
      DeadStaysDead(wr, names[i]);
    }
    assert Removes(wr', limit - 1, names, if g < |names| then g + 1 else g);
  }

  lemma {:induction false} FirstNameDies(wr: Writer)
    requires Valid(wr) && wr.files != [] && wr.kept != [] && wr.files[0].name.Stamped?
    ensures Dead(UnlinkStep(wr), wr.files[0].name)
  {
    hide Holds, Flatten;
    var rest := wr.files[1..];
    forall i | 0 <= i < |rest| ensures rest[i].name != wr.files[0].name {
      assert rest[i] == wr.files[i + 1];
    }
  }

  lemma {:induction false} DeadStaysDead(wr: Writer, name: FileName)
    requires wr.files != [] && wr.kept != [] && Dead(wr, name)
    ensures Dead(UnlinkStep(wr), name)
  {}

  /** ...and a list whose first path is missing goes on with the others. */
  lemma {:induction false} NextOfList(wr: Writer, limit: nat, names: seq<FileName>)
    requires Valid(wr) && Removable(wr, limit, names) && names != []
    requires IndexOfName(wr.files, names[0]) == |wr.files|
    ensures Removable(wr, limit, names[1..])
  {
    hide Holds, Flatten, Listed;
    var g: nat :| Removes(wr, limit, names, g);
    if g > 0 {
      assert Removes(wr, limit, names[1..], g - 1);
    }
  }

  lemma {:induction false} ListIsMonotone(wr: Writer, limit: nat, limit': nat, names: seq<FileName>)
    requires Removable(wr, limit, names) && limit <= limit' <= |wr.files|
    ensures Removable(wr, limit', names)
  {
    var g: nat :| Removes(wr, limit, names, g);
    assert Removes(wr, limit', names, g);
  }
}
