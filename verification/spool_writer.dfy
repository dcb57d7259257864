/** The writing side of the spool: size rotation and one whole-line append. */
module SpoolWriter {
  import opened Wrappers
  import opened Spool

  /** Which system call of an append fails, if any.  A process killed at that point leaves the
      same files behind. */
  datatype Fault =
    | NoFault
    | RotateFault            // os.replace fails, or the process dies before it
    | OpenFault              // os.open fails, or the process dies after the rotation
    | ShortWrite(n: nat)     // n bytes of the line reach the file
    | SyncFault              // the line is in the file, but fsync reports an error

  predicate HasActive(files: Directory) { files != [] && files[|files| - 1].name.Active? }

  /** Placing a renamed file where the reader's sort by stamp will list it; os.replace
      overwrites a file of the same name. */
  function Place(files: Directory, f: File): Directory
    requires f.name.Stamped?
  {
    if files == [] || files[0].name.Active? || f.name.stamp < files[0].name.stamp then [f] + files
    else if files[0].name.stamp == f.name.stamp then [f] + files[1..]
    else [files[0]] + Place(files[1..], f)
  }

  function Rotate(files: Directory, stamp: nat): Directory
    requires HasActive(files)
  {
    Place(files[..|files| - 1], files[|files| - 1].(name := Stamped(stamp)))
  }

  predicate MustRotate(files: Directory, line: Line, maxBytes: nat) {
    HasActive(files) && |files[|files| - 1].data| + |line| + 1 > maxBytes
  }

  /** Opening events.jsonl for append, creating it when absent. */
  function Opened(files: Directory, inode: nat): (r: Directory)
    ensures HasActive(r)
  {
    if HasActive(files) then files else files + [File(Active, inode, [])]
  }

  function Written(files: Directory, data: Bytes): (r: Directory)
    requires HasActive(files)
    ensures HasActive(r)
  {
    var last := |files| - 1;
    files[last := files[last].(data := files[last].data + data)]
  }

  function Rotated(files: Directory, line: Line, maxBytes: nat, stamp: nat): Directory {
    if MustRotate(files, line, maxBytes) then Rotate(files, stamp) else files
  }

  predicate Raises(files: Directory, line: Line, maxBytes: nat, fault: Fault) {
    match fault
    case NoFault => false
    case RotateFault => MustRotate(files, line, maxBytes)
    case ShortWrite(n) => n <= |line|
    case _ => true
  }

  /** The directory an append leaves behind. */
  function Appended(files: Directory, line: Line, maxBytes: nat, stamp: nat, inode: nat, fault: Fault): Directory {
    if fault.RotateFault? && MustRotate(files, line, maxBytes) then files
    else
      var rotated := Rotated(files, line, maxBytes, stamp);
      if fault.OpenFault? then rotated
      else
        var record := line + [NEWLINE];
        Written(Opened(rotated, inode), if fault.ShortWrite? then Take(record, fault.n) else record)
  }

  class EventSpool {
    const maxBytes: nat
    var files: Directory
    var healthy: bool
    var failures: nat

    constructor (maxBytes: nat, files: Directory)
      ensures this.maxBytes == maxBytes && this.files == files && healthy && failures == 0
    {
      this.maxBytes, this.files, healthy, failures := maxBytes, files, true, 0;
    }

    /** One event.  stamp is the clock reading, inode what the file system hands out. */
    method Append(line: Line, stamp: nat, inode: nat, fault: Fault) returns (raised: bool)
      modifies this
      ensures files == Appended(old(files), line, maxBytes, stamp, inode, fault)
      ensures raised == Raises(old(files), line, maxBytes, fault)
      ensures healthy == !raised && failures == old(failures) + if raised then 1 else 0
    {
      raised := TryAppend(line, stamp, inode, fault);
      if raised {
        healthy, failures := false, failures + 1;
      } else {
        healthy := true;
      }
    }

    /** The body of the try block; raised stands for OSError. */
    method TryAppend(line: Line, stamp: nat, inode: nat, fault: Fault) returns (raised: bool)
      modifies this`files
      ensures files == Appended(old(files), line, maxBytes, stamp, inode, fault)
      ensures raised == Raises(old(files), line, maxBytes, fault)
    {
      var record := line + [NEWLINE];
      if HasActive(files) && |files[|files| - 1].data| + |record| > maxBytes {
        if fault.RotateFault? { return true; }
        files := Rotate(files, stamp);
      }
      if fault.OpenFault? { return true; }
      if !HasActive(files) {
        files := files + [File(Active, inode, [])];
      }
      var written := if fault.ShortWrite? then Take(record, fault.n) else record;
      var last := |files| - 1;
      files := files[last := files[last].(data := files[last].data + written)];
      if |written| != |record| { return true; }
      return fault.SyncFault?;
    }
  }

  // ---- Why the assumptions are needed ----

  /** A rotation keeps every rotated file exactly when its stamp is new: os.replace onto an old
      name destroys the file that had it. */
  lemma {:induction false} PlaceKeepsFilesIff(files: Directory, f: File)
    requires f.name.Stamped? && forall i | 0 <= i < |files| :: files[i].name.Stamped?
    requires forall i, j | 0 <= i < j < |files| :: files[i].name.stamp < files[j].name.stamp
    ensures (forall g | g in files :: g in Place(files, f)) <==> (forall g | g in files :: g.name == f.name ==> g == f)
  {
    if files != [] {
      var head, tail := files[0], files[1..];
      assert files == [head] + tail;
      if head.name.stamp < f.name.stamp {
        PlaceKeepsFilesIff(tail, f);
        assert Place(files, f) == [head] + Place(tail, f);
        assert forall g | g in tail :: g != head;
        assert forall g | g in tail :: g in Place(files, f) <==> g in Place(tail, f);
      } else if head.name == f.name {
        assert forall g | g in tail :: g.name != f.name;
        assert head in files;
      }
    }
  }

  /** A torn write also destroys the event after it: the reader sees one merged line. */
  lemma {:induction false} TornWriteMergesLines(torn: Line, n: nat, next: Line)
    requires n <= |torn|
    ensures SplitLines(Take(torn + [NEWLINE], n) + next + [NEWLINE]) == [torn[..n] + next]
  {
    var merged: Line := torn[..n] + next;
    SplitLinesOfFlat([merged]);
    assert Take(torn + [NEWLINE], n) == torn[..n];
    assert Flat([merged]) == merged + [NEWLINE];
  }
}
