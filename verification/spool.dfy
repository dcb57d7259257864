/** The bytes of the evidence spool and one read pass: a log per writing process, drained with
    an (inode, offset) cursor per writer. */
module Spool {
  import opened Wrappers
  import opened Sequences

  newtype byte = x: int | 0 <= x < 256

  const NEWLINE: byte := 10
  const RETURN: byte := 13

  type Bytes = seq<byte>

  /** One event as its JSON text.  Compact JSON escapes control characters. */
  type Line = s: Bytes | NEWLINE !in s && RETURN !in s witness []

  /** Active is events.jsonl, Stamped(t) is events-t.jsonl. */
  datatype FileName = Active | Stamped(stamp: nat)

  datatype File = File(name: FileName, inode: nat, data: Bytes)

  /** A writer's directory, in the order in which _files lists it. */
  type Directory = seq<File>

  datatype Position = Position(inode: nat, offset: nat)

  // ---- Bytes of whole lines ----

  function Flat(lines: seq<Line>): Bytes {
    if lines == [] then [] else lines[0] + [NEWLINE] + Flat(lines[1..])
  }

  function Flatten(groups: seq<seq<Line>>): seq<Line> {
    if groups == [] then [] else groups[0] + Flatten(groups[1..])
  }

  lemma {:induction false} FlatConcat(a: seq<Line>, b: seq<Line>)
    ensures Flat(a + b) == Flat(a) + Flat(b)
  {
    if a == [] {
      NothingConcat(b);
      NothingConcat(Flat(b));
    } else {
      FlatConcat(a[1..], b);
      TailConcat(a, b);
      Associate(a[0] + [NEWLINE], Flat(a[1..]), Flat(b));
    }
  }

  lemma {:induction false} FlattenConcat(a: seq<seq<Line>>, b: seq<seq<Line>>)
    ensures Flatten(a + b) == Flatten(a) + Flatten(b)
  {
    if a == [] {
      NothingConcat(b);
      NothingConcat(Flatten(b));
    } else {
      FlattenConcat(a[1..], b);
      TailConcat(a, b);
      Associate(a[0], Flatten(a[1..]), Flatten(b));
    }
  }

  lemma {:induction false} FlatTakeLength(lines: seq<Line>, k: nat)
    requires k <= |lines|
    ensures |Flat(lines[..k])| <= |Flat(lines)|
    ensures |Flat(lines[..k])| == |Flat(lines)| ==> k == |lines|
    ensures Flat(lines)[|Flat(lines[..k])|..] == Flat(lines[k..])
  {
    assert lines == lines[..k] + lines[k..];
    FlatConcat(lines[..k], lines[k..]);
  }

  // ---- What a reader sees in a chunk ----

  /** data.rfind(b'\n') + 1: the length of the part made of complete lines. */
  function CompleteLength(data: Bytes): (end: nat)
    ensures end <= |data|
  {
    if data == [] then 0
    else if data[|data| - 1] == NEWLINE then |data|
    else CompleteLength(data[..|data| - 1])
  }

  /** It ends just after the last newline. */
  lemma {:induction false} CompleteLengthIsLastNewline(data: Bytes)
    ensures var end := CompleteLength(data);
            (end > 0 ==> data[end - 1] == NEWLINE) && NEWLINE !in data[end..]
  {
    if data != [] && data[|data| - 1] != NEWLINE {
      var init := data[..|data| - 1];
      CompleteLengthIsLastNewline(init);
      SplitLast(data[CompleteLength(init)..]);
      assert data[CompleteLength(init)..][..|data| - CompleteLength(init) - 1] == init[CompleteLength(init)..];
    }
  }

  /** bytes.splitlines: breaks at \n, \r and \r\n. */
  function SplitLines(data: Bytes): seq<Bytes>
    decreases |data|
  {
    if data == [] then []
    else
      var k := FirstBreak(data);
      if k == |data| then [data]
      else
        var skip := if data[k] == RETURN && k + 1 < |data| && data[k + 1] == NEWLINE then 2 else 1;
        [data[..k]] + SplitLines(data[k + skip..])
  }

  function FirstBreak(data: Bytes): (k: nat)
    ensures k <= |data|
  {
    if data == [] || data[0] == NEWLINE || data[0] == RETURN then 0 else 1 + FirstBreak(data[1..])
  }

  /** The first break after a line without one. */
  lemma {:induction false} FirstBreakAfter(line: Line, rest: Bytes)
    ensures FirstBreak(line + [NEWLINE] + rest) == |line|
  {
    var data := line + [NEWLINE] + rest;
    if line != [] {
      assert line[0] in line;
      assert data[1..] == line[1..] + [NEWLINE] + rest;
      FirstBreakAfter(line[1..], rest);
    }
  }

  function Take(data: Bytes, n: nat): Bytes { if n <= |data| then data[..n] else data }

  function Drop(data: Bytes, n: nat): Bytes { data[if n <= |data| then n else |data|..] }

  lemma {:induction false} SplitLinesOfFlat(lines: seq<Line>)
    ensures SplitLines(Flat(lines)) == lines
  {
    if lines != [] {
      var data := Flat(lines);
      var k := |lines[0]|;
      FirstBreakAfter(lines[0], Flat(lines[1..]));
      assert data[..k] == lines[0] && data[k] == NEWLINE;
      assert data[k + 1..] == Flat(lines[1..]);
      SplitLinesOfFlat(lines[1..]);
    }
  }

  /** How many leading lines fit, newline included, in a budget of bytes. */
  function Fitting(lines: seq<Line>, budget: nat): (m: nat)
    ensures m <= |lines|
  {
    if lines == [] || |lines[0]| + 1 > budget then 0
    else 1 + Fitting(lines[1..], budget - |lines[0]| - 1)
  }

  lemma {:induction false} CompleteLengthAfter(head: Bytes, tail: Bytes)
    requires head != [] && head[|head| - 1] == NEWLINE
    ensures CompleteLength(head + tail) == |head| + CompleteLength(tail)
  {
    if tail == [] {
      assert head + tail == head;
    } else if tail[|tail| - 1] != NEWLINE {
      assert (head + tail)[..|head + tail| - 1] == head + tail[..|tail| - 1];
      CompleteLengthAfter(head, tail[..|tail| - 1]);
    }
  }

  lemma {:induction false} NoNewline(data: Bytes)
    requires NEWLINE !in data
    ensures CompleteLength(data) == 0
  {
    if data != [] {
      assert data[|data| - 1] in data;
      NoNewline(data[..|data| - 1]);
    }
  }

  lemma {:induction false} FlatFirst(lines: seq<Line>, n: nat)
    requires 0 < n <= |lines|
    ensures Flat(lines[..n]) == lines[0] + [NEWLINE] + Flat(lines[1..][..n - 1])
  {
    assert lines[..n][1..] == lines[1..][..n - 1];
  }

  /** Cutting a log at a byte budget and then at the last newline keeps exactly the
      leading lines that fit; never a part of a line. */
  lemma {:induction false} CutKeepsWholeLines(lines: seq<Line>, budget: nat)
    ensures var data := Take(Flat(lines), budget);
            data[..CompleteLength(data)] == Flat(lines[..Fitting(lines, budget)])
  {
    if lines != [] {
      if |lines[0]| + 1 > budget {
        CutInsideFirstLine(lines, budget);
      } else {
        hide CompleteLength, Take;
        var head := lines[0] + [NEWLINE];
        CutKeepsWholeLines(lines[1..], budget - |head|);
        CutAfterFirstLine(lines, budget);
        var m := Fitting(lines[1..], budget - |head|);
        FlatFirst(lines, m + 1);
      }
    }
  }

  lemma {:induction false} CutInsideFirstLine(lines: seq<Line>, budget: nat)
    requires lines != [] && |lines[0]| + 1 > budget
    ensures CompleteLength(Take(Flat(lines), budget)) == 0
  {
    var data := Take(Flat(lines), budget);
    assert data == lines[0][..budget];
    NoNewline(data);
  }

  lemma {:induction false} CutAfterFirstLine(lines: seq<Line>, budget: nat)
    requires lines != [] && |lines[0]| + 1 <= budget
    ensures var data, rest := Take(Flat(lines), budget), Take(Flat(lines[1..]), budget - |lines[0]| - 1);
            data[..CompleteLength(data)] == lines[0] + [NEWLINE] + rest[..CompleteLength(rest)]
  {
    var head := lines[0] + [NEWLINE];
    var rest := Take(Flat(lines[1..]), budget - |head|);
    var data := Take(Flat(lines), budget);
    assert Flat(lines) == head + Flat(lines[1..]);
    assert data == head + rest;
    CompleteLengthAfter(head, rest);
    TakeAfter(head, rest, CompleteLength(rest));
  }

  lemma {:induction false} TakeAfter(head: Bytes, rest: Bytes, n: nat)
    requires n <= |rest|
    ensures (head + rest)[..|head| + n] == head + rest[..n]
  {}

  // ---- Reading one writer ----

  /** The outcome of the loop over one writer's files: the events, where the cursor stops,
      the files left behind fully read, and the budget that remains. */
  datatype Scan = Scan(events: seq<Bytes>, index: nat, offset: nat, drained: seq<File>, budget: nat)

  function Scanned(events: seq<Bytes>, drained: seq<File>, rest: Scan): Scan {
    rest.(events := events + rest.events, drained := drained + rest.drained)
  }

  /** What one read of a file adds: the complete lines within the budget. */
  function Chunk(f: File, offset: nat, budget: nat): (data: Bytes)
    ensures |data| <= budget
  {
    var data := Take(Drop(f.data, offset), budget);
    data[..CompleteLength(data)]
  }

  /** Does the scan leave this file behind? */
  predicate Passes(files: Directory, index: nat, offset: nat)
    requires index < |files|
  {
    files[index].name.Stamped? && offset >= |files[index].data| && index + 1 < |files|
  }

  /** The loop over the files from files[index], starting at offset. */
  function ScanFrom(files: Directory, index: nat, offset: nat, budget: nat): (r: Scan)
    requires index < |files|
    ensures index <= r.index < |files| && r.budget <= budget
    decreases |files| - index
  {
    var chunk := Chunk(files[index], offset, budget);
    if Passes(files, index, offset + |chunk|) then
      Scanned(SplitLines(chunk), [files[index]], ScanFrom(files, index + 1, 0, budget - |chunk|))
    else
      Scan(SplitLines(chunk), index, offset + |chunk|, [], budget - |chunk|)
  }

  /** The index of the file with this inode, or |files|. */
  function Locate(files: Directory, inode: nat): (i: nat)
    ensures i <= |files|
    ensures i < |files| ==> files[i].inode == inode
    ensures forall j | 0 <= j < i :: files[j].inode != inode
  {
    if files == [] || files[0].inode == inode then 0
    else
      assert files == [files[0]] + files[1..];
      1 + Locate(files[1..], inode)
  }

  /** Where a pass resumes in a writer's directory. */
  function Start(files: Directory, position: Option<Position>): (r: (nat, nat))
    ensures r.0 < |files| || r.0 == 0
  {
    if position.Some? && Locate(files, position.value.inode) < |files|
    then (Locate(files, position.value.inode), position.value.offset)
    else (0, 0)
  }

  /** One writer in a pass: nothing when the directory is empty, otherwise the scan, with
      the files before the starting point listed as drained too. */
  function ReadWriter(files: Directory, position: Option<Position>, budget: nat): (r: Scan)
    requires files != []
    ensures Start(files, position).0 <= r.index < |files| && r.budget <= budget
  {
    var (start, offset) := Start(files, position);
    Scanned([], files[..start], ScanFrom(files, start, offset, budget))
  }

  // ---- Reading every writer ----

  type Name = string

  datatype Pass = Pass(events: seq<(Name, Bytes)>, cursor: map<Name, Position>, drained: seq<(Name, FileName)>)

  function Tag(w: Name, events: seq<Bytes>): seq<(Name, Bytes)> {
    seq(|events|, i requires 0 <= i < |events| => (w, events[i]))
  }

  function Paths(w: Name, files: seq<File>): seq<(Name, FileName)> {
    seq(|files|, i requires 0 <= i < |files| => (w, files[i].name))
  }

  function Get<T>(m: map<Name, T>, w: Name): Option<T> { if w in m then Some(m[w]) else None }

  function DirectoryOf(dirs: map<Name, Directory>, w: Name): Directory { if w in dirs then dirs[w] else [] }

  /** One writer's share of a pass, and the budget it leaves. */
  function ReadOne(files: Directory, w: Name, cursor: map<Name, Position>, budget: nat): (Pass, nat) {
    if files == [] then (Pass([], cursor, []), budget)
    else
      var scan := ReadWriter(files, Get(cursor, w), budget);
      var moved := cursor[w := Position(files[scan.index].inode, scan.offset)];
      (Pass(Tag(w, scan.events), moved, Paths(w, scan.drained)), scan.budget)
  }

  /** read_pending over the writers in order, sharing one byte budget. */
  function ReadWriters(dirs: map<Name, Directory>, order: seq<Name>, cursor: map<Name, Position>, budget: nat): Pass
  {
    if order == [] then Pass([], cursor, [])
    else
      var (head, left) := ReadOne(DirectoryOf(dirs, order[0]), order[0], cursor, budget);
      if left == 0 then head
      else After(head.events, head.drained, ReadWriters(dirs, order[1..], head.cursor, left))
  }

  function After(events: seq<(Name, Bytes)>, drained: seq<(Name, FileName)>, rest: Pass): Pass {
    rest.(events := events + rest.events, drained := drained + rest.drained)
  }

  lemma {:induction false} ScannedTwice(e: seq<Bytes>, d: seq<File>, e': seq<Bytes>, d': seq<File>, rest: Scan)
    ensures Scanned(e, d, Scanned(e', d', rest)) == Scanned(e + e', d + d', rest)
  {
    assert e + (e' + rest.events) == e + e' + rest.events;
    assert d + (d' + rest.drained) == d + d' + rest.drained;
  }

  lemma {:induction false} AfterTwice(e: seq<(Name, Bytes)>, d: seq<(Name, FileName)>, e': seq<(Name, Bytes)>,
                                      d': seq<(Name, FileName)>, rest: Pass)
    ensures After(e, d, After(e', d', rest)) == After(e + e', d + d', rest)
  {
    assert e + (e' + rest.events) == e + e' + rest.events;
    assert d + (d' + rest.drained) == d + d' + rest.drained;
  }

  lemma {:induction false} AfterAll(dirs: map<Name, Directory>, order: seq<Name>, events: seq<(Name, Bytes)>,
                                    drained: seq<(Name, FileName)>, cursor: map<Name, Position>, budget: nat)
    ensures After(events, drained, ReadWriters(dirs, order[|order|..], cursor, budget)) == Pass(events, cursor, drained)
    ensures After([], [], ReadWriters(dirs, order, cursor, budget)) == ReadWriters(dirs, order, cursor, budget)
  {
    ConcatNothing(events);
    ConcatNothing(drained);
    var pass := ReadWriters(dirs, order, cursor, budget);
    NothingConcat(pass.events);
    NothingConcat(pass.drained);
  }

  /** One round of the loop over the writers. */
  lemma {:induction false} WriterStep(dirs: map<Name, Directory>, order: seq<Name>, i: nat, events: seq<(Name, Bytes)>,
                                      drained: seq<(Name, FileName)>, cursor: map<Name, Position>, budget: nat)
    requires i < |order|
    ensures var (head, left) := ReadOne(DirectoryOf(dirs, order[i]), order[i], cursor, budget);
            After(events, drained, ReadWriters(dirs, order[i..], cursor, budget)) ==
            if left == 0 then Pass(events + head.events, head.cursor, drained + head.drained)
            else After(events + head.events, drained + head.drained,
                       ReadWriters(dirs, order[i + 1..], head.cursor, left))
  {
    assert order[i..][0] == order[i] && order[i..][1..] == order[i + 1..];
    var (head, left) := ReadOne(DirectoryOf(dirs, order[i]), order[i], cursor, budget);
    AfterTwice(events, drained, head.events, head.drained, ReadWriters(dirs, order[i + 1..], head.cursor, left));
  }

  predicate Ends(scan: Scan, events: seq<Bytes>, index: nat, offset: nat, drained: seq<File>, budget: nat) {
    && scan.events == events && scan.index == index && scan.offset == offset
    && scan.drained == drained && scan.budget == budget
  }

  /** The whole scan is what was read and left behind so far, and then the rest. */
  ghost predicate LeadsTo(whole: Scan, events: seq<Bytes>, drained: seq<File>, rest: Scan) {
    whole == Scanned(events, drained, rest)
  }

  lemma {:induction false} ScanUnfolds(files: Directory, index: nat, offset: nat, budget: nat)
    requires index < |files|
    ensures var chunk := Chunk(files[index], offset, budget);
            if Passes(files, index, offset + |chunk|)
            then LeadsTo(ScanFrom(files, index, offset, budget), SplitLines(chunk), [files[index]],
                         ScanFrom(files, index + 1, 0, budget - |chunk|))
            else Ends(ScanFrom(files, index, offset, budget), SplitLines(chunk), index, offset + |chunk|, [],
                      budget - |chunk|)
  {}

  lemma {:induction false} LeadsOn(whole: Scan, e: seq<Bytes>, d: seq<File>, middle: Scan, e': seq<Bytes>,
                                   d': seq<File>, rest: Scan)
    requires LeadsTo(whole, e, d, middle) && LeadsTo(middle, e', d', rest)
    ensures LeadsTo(whole, e + e', d + d', rest)
  {
    ScannedTwice(e, d, e', d', rest);
  }

  lemma {:induction false} LeadsToEnd(whole: Scan, e: seq<Bytes>, d: seq<File>, e': seq<Bytes>, last: Scan)
    requires LeadsTo(whole, e, d, last) && last.drained == [] && last.events == e'
    ensures Ends(whole, e + e', last.index, last.offset, d, last.budget)
  {
    ConcatNothing(d);
  }

  /** One round of the loop over a writer's files. */
  lemma {:induction false} FileStep(whole: Scan, files: Directory, events: seq<Bytes>, drained: seq<File>, index: nat,
                                    offset: nat, budget: nat)
    requires index < |files| && LeadsTo(whole, events, drained, ScanFrom(files, index, offset, budget))
    ensures var chunk := Chunk(files[index], offset, budget);
            if Passes(files, index, offset + |chunk|)
            then LeadsTo(whole, events + SplitLines(chunk), drained + [files[index]],
                         ScanFrom(files, index + 1, 0, budget - |chunk|))
            else Ends(whole, events + SplitLines(chunk), index, offset + |chunk|, drained, budget - |chunk|)
  {
    hide Chunk, SplitLines, ScanFrom, LeadsTo;
    var chunk := Chunk(files[index], offset, budget);
    ScanUnfolds(files, index, offset, budget);
    if Passes(files, index, offset + |chunk|) {
      LeadsOn(whole, events, drained, ScanFrom(files, index, offset, budget),
              SplitLines(chunk), [files[index]], ScanFrom(files, index + 1, 0, budget - |chunk|));
    } else {
      LeadsToEnd(whole, events, drained, SplitLines(chunk), ScanFrom(files, index, offset, budget));
    }
  }

  // ---- Lines that are events ----

  /** The lines that parse as JSON objects; the others are dropped. */
  function Parsed(lines: seq<Bytes>, isEvent: Bytes -> bool): seq<Bytes> {
    if lines == [] then []
    else
      var earlier, last := Parsed(lines[..|lines| - 1], isEvent), lines[|lines| - 1];
      if isEvent(last) then earlier + [last] else earlier
  }

  function ParsedEvents(events: seq<(Name, Bytes)>, isEvent: Bytes -> bool): seq<(Name, Bytes)> {
    if events == [] then []
    else
      var earlier, last := ParsedEvents(events[..|events| - 1], isEvent), events[|events| - 1];
      if isEvent(last.1) then earlier + [last] else earlier
  }

  lemma {:induction false} ParsedConcat(a: seq<Bytes>, b: seq<Bytes>, isEvent: Bytes -> bool)
    ensures Parsed(a + b, isEvent) == Parsed(a, isEvent) + Parsed(b, isEvent)
  {
    if b == [] {
      ConcatNothing(a);
    } else {
      ConcatLast(a, b);
      ParsedConcat(a, b[..|b| - 1], isEvent);
    }
  }

  lemma {:induction false} ParsedEventsConcat(a: seq<(Name, Bytes)>, b: seq<(Name, Bytes)>, isEvent: Bytes -> bool)
    ensures ParsedEvents(a + b, isEvent) == ParsedEvents(a, isEvent) + ParsedEvents(b, isEvent)
  {
    if b == [] {
      ConcatNothing(a);
    } else {
      ConcatLast(a, b);
      ParsedEventsConcat(a, b[..|b| - 1], isEvent);
    }
  }

  lemma {:induction false} ParsedTag(w: Name, lines: seq<Bytes>, isEvent: Bytes -> bool)
    ensures ParsedEvents(Tag(w, lines), isEvent) == Tag(w, Parsed(lines, isEvent))
  {
    if lines != [] {
      var last := |lines| - 1;
      assert Tag(w, lines)[..last] == Tag(w, lines[..last]);
      ParsedTag(w, lines[..last], isEvent);
    }
  }

  /** Nothing is dropped when every line is an event. */
  lemma {:induction false} AllParsed(events: seq<(Name, Bytes)>, isEvent: Bytes -> bool)
    requires forall e | e in events :: isEvent(e.1)
    ensures ParsedEvents(events, isEvent) == events
  {
    if events != [] {
      SplitLast(events);
      AllParsed(events[..|events| - 1], isEvent);
    }
  }

  /** read_pending as the program runs it: two loops over the writers and their files. */
  method ReadPending(dirs: map<Name, Directory>, order: seq<Name>, committed: map<Name, Position>, limit: nat,
                     isEvent: Bytes -> bool)
    returns (pass: Pass)
    ensures var all := ReadWriters(dirs, order, committed, limit);
            pass == all.(events := ParsedEvents(all.events, isEvent))
  {
    hide ReadWriter, ScanFrom, SplitLines, Chunk, After, Parsed, ParsedEvents;
    var events: seq<(Name, Bytes)> := [];
    ghost var lines: seq<(Name, Bytes)> := [];
    var drained: seq<(Name, FileName)> := [];
    var cursor, budget := committed, limit;
    NothingParsed(isEvent);
    AfterAll(dirs, order, lines, drained, cursor, budget);
    var i := 0;
    while i < |order|
      invariant 0 <= i <= |order| && events == ParsedEvents(lines, isEvent)
      invariant ReadWriters(dirs, order, committed, limit)
             == After(lines, drained, ReadWriters(dirs, order[i..], cursor, budget))
    {
      var w := order[i];
      var files := DirectoryOf(dirs, w);
      WriterStep(dirs, order, i, lines, drained, cursor, budget);
      ConcatNothing(lines);
      ConcatNothing(drained);
      if files != [] {
        ghost var scan := ReadWriter(files, Get(cursor, w), budget);
        var found, behind, index, offset, rest := ReadFiles(files, Get(cursor, w), budget, isEvent);
        ParsedTag(w, scan.events, isEvent);
        ParsedEventsConcat(lines, Tag(w, scan.events), isEvent);
        events, lines := events + Tag(w, found), lines + Tag(w, scan.events);
        drained := drained + Paths(w, behind);
        cursor, budget := cursor[w := Position(files[index].inode, offset)], rest;
      }
      i := i + 1;
      if budget == 0 {
        return Pass(events, cursor, drained);
      }
    }
    AfterAll(dirs, order, lines, drained, cursor, budget);
    pass := Pass(events, cursor, drained);
  }

  lemma {:induction false} NothingParsed(isEvent: Bytes -> bool)
    ensures Parsed([], isEvent) == [] && ParsedEvents([], isEvent) == []
  {}

  /** The inner loop: from the cursor's file until a file is not yet fully read and sealed. */
  method ReadFiles(files: Directory, position: Option<Position>, limit: nat, isEvent: Bytes -> bool)
    returns (events: seq<Bytes>, drained: seq<File>, index: nat, offset: nat, budget: nat)
    requires files != []
    ensures index < |files|
    ensures var all := ReadWriter(files, position, limit);
            && events == Parsed(all.events, isEvent) && drained == all.drained
            && index == all.index && offset == all.offset && budget == all.budget
  {
    hide SplitLines, Chunk, Parsed;
    var (start, from) := Start(files, position);
    events, drained, index, offset, budget := [], files[..start], start, from, limit;
    ghost var lines: seq<Bytes> := [];
    ghost var whole := ReadWriter(files, position, limit);
    NothingParsed(isEvent);
    while true
      invariant index < |files| && events == Parsed(lines, isEvent)
      invariant LeadsTo(whole, lines, drained, ScanFrom(files, index, offset, budget))
      decreases |files| - index
    {
      FileStep(whole, files, lines, drained, index, offset, budget);
      var chunk := Chunk(files[index], offset, budget);
      ParsedConcat(lines, SplitLines(chunk), isEvent);
      events, lines := events + Parsed(SplitLines(chunk), isEvent), lines + SplitLines(chunk);
      offset, budget := offset + |chunk|, budget - |chunk|;
      if files[index].name.Stamped? && offset >= |files[index].data| && index + 1 < |files| {
        drained := drained + [files[index]];
        index, offset := index + 1, 0;
      } else {
        return;
      }
    }
  }

  // ---- A sealed file that the reader cannot leave ----

  /** With enough budget the reader gets to the end of a file if and only if nothing is left to
      read or the file ends with a newline.  A torn line at the end of a sealed file therefore holds
      its writer's later files back. */
  lemma {:induction false} FileIsFinishedIff(f: File, offset: nat)
    requires offset <= |f.data|
    ensures (exists budget :: offset + |Chunk(f, offset, budget)| >= |f.data|) <==>
            offset == |f.data| || f.data[|f.data| - 1] == NEWLINE
  {
    var rest := Drop(f.data, offset);
    assert Take(rest, |rest|) == rest;
    if offset < |f.data| && f.data[|f.data| - 1] == NEWLINE {
      assert |Chunk(f, offset, |rest|)| == |rest|;
    } else if offset < |f.data| {
      forall budget ensures |Chunk(f, offset, budget)| < |rest| {
        CompleteLengthIsLastNewline(Take(rest, budget));
      }
    } else {
      assert offset + |Chunk(f, offset, 0)| >= |f.data|;
    }
  }
}
