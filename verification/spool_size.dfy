/** How large the active file of the spool gets, on the files alone and over every run. */
module SpoolSize {
  import opened Sequences
  import opened Wrappers
  import opened Spool
  import opened SpoolWriter
  import opened SpoolDelivery
  import opened SpoolSystem

  function ActiveSize(files: Directory): nat {
    if HasActive(files) then |files[|files| - 1].data| else 0
  }

  /** The active file is within the limit, or holds one record, which alone is larger. */
  ghost predicate Bounded(files: Directory, maxBytes: nat) {
    HasActive(files) ==>
      var data := files[|files| - 1].data;
      |data| <= maxBytes || exists line: Line :: data == line + [NEWLINE]
  }

  /** Every file keeps its name, its place and what it held. */
  predicate Kept(files: Directory, after: Directory) {
    && |files| <= |after|
    && forall i | 0 <= i < |files| :: after[i].name == files[i].name && files[i].data <= after[i].data
  }

  // ---- One append ----

  /** The size rule of rotation, for an append that reports no error or only a failing sync.  The
      record ends up in the active file; if it fits beside what was there, no file changes its name;
      if not, the active file is sealed as it is, and the record starts a new one. */
  lemma {:induction false} AppendRotatesIff(files: Directory, lastStamp: nat, line: Line, maxBytes: nat, stamp: nat,
                                            inode: nat, fault: Fault)
    requires Listed(files, lastStamp) && lastStamp < stamp && (fault == NoFault || fault == SyncFault)
    ensures var after := Appended(files, line, maxBytes, stamp, inode, fault);
            var record := line + [NEWLINE];
            && HasActive(after)
            && (if !HasActive(files) then
                  Kept(files, after) && |after| == |files| + 1 && after[|files|].data == record
                else if ActiveSize(files) + |record| <= maxBytes then
                  && Kept(files, after) && |after| == |files|
                  && after[|files| - 1].data == files[|files| - 1].data + record
                else
                  && |after| == |files| + 1 && after[|files|].data == record
                  && after[|files| - 1] == files[|files| - 1].(name := Stamped(stamp))
                  && after[..|files| - 1] == files[..|files| - 1])
  {
    hide Place;
    if HasActive(files) && ActiveSize(files) + |line| + 1 > maxBytes {
      var last := |files| - 1;
      PlacedLast(files[..last], files[last].(name := Stamped(stamp)));
    }
  }

  /** After such an append the active file is within the limit, or holds this record only. */
  lemma {:induction false} AppendStaysInBounds(files: Directory, lastStamp: nat, line: Line, maxBytes: nat, stamp: nat,
                                               inode: nat, fault: Fault)
    requires Listed(files, lastStamp) && lastStamp < stamp && (fault == NoFault || fault == SyncFault)
    ensures var after := Appended(files, line, maxBytes, stamp, inode, fault);
            && HasActive(after)
            && (ActiveSize(after) <= maxBytes || after[|after| - 1].data == line + [NEWLINE])
  {
    hide Appended;
    AppendRotatesIff(files, lastStamp, line, maxBytes, stamp, inode, fault);
  }

  /** Which appends rotate, whatever fails: exactly those that find an active file too full for the
      record, unless the rename fails. */
  lemma {:induction false} RotatesIff(files: Directory, lastStamp: nat, line: Line, maxBytes: nat, stamp: nat,
                                      inode: nat, fault: Fault)
    requires Listed(files, lastStamp) && lastStamp < stamp
    ensures var after := Appended(files, line, maxBytes, stamp, inode, fault);
            && (exists f | f in after :: f.name == Stamped(stamp)) <==>
                 HasActive(files) && ActiveSize(files) + |line| + 1 > maxBytes && fault != RotateFault
  {
    hide Place;
    var after := Appended(files, line, maxBytes, stamp, inode, fault);
    if HasActive(files) && ActiveSize(files) + |line| + 1 > maxBytes {
      var last := |files| - 1;
      PlacedLast(files[..last], files[last].(name := Stamped(stamp)));
      if fault != RotateFault { assert after[last].name == Stamped(stamp); }
    }
  }

  predicate EndsWith(data: Bytes, record: Bytes) { |record| <= |data| && data[|data| - |record|..] == record }

  /** An append that does not raise has its whole record at the end of the active file; one whose
      record is not there, or not known to be synced, raises. */
  lemma {:induction false} SilenceMeansWritten(files: Directory, line: Line, maxBytes: nat, stamp: nat, inode: nat,
                                               fault: Fault)
    ensures var after := Appended(files, line, maxBytes, stamp, inode, fault);
            !Raises(files, line, maxBytes, fault) ==>
              HasActive(after) && EndsWith(after[|after| - 1].data, line + [NEWLINE]) && fault != SyncFault
    ensures fault.ShortWrite? && fault.n <= |line| ==> Raises(files, line, maxBytes, fault)
    ensures fault == OpenFault || fault == SyncFault ==> Raises(files, line, maxBytes, fault)
  {
    hide Place;
    if fault.ShortWrite? && fault.n > |line| { assert Take(line + [NEWLINE], fault.n) == line + [NEWLINE]; }
  }

  // ---- Every run ----

  lemma {:induction false} AppendKeepsBounded(files: Directory, lastStamp: nat, line: Line, maxBytes: nat, stamp: nat,
                                              inode: nat, fault: Fault)
    requires Listed(files, lastStamp) && lastStamp < stamp && Bounded(files, maxBytes)
    requires fault.ShortWrite? ==> fault.n == 0 || fault.n > |line|
    ensures Bounded(Appended(files, line, maxBytes, stamp, inode, fault), maxBytes)
  {
    hide Place;
    if HasActive(files) && ActiveSize(files) + |line| + 1 > maxBytes {
      var last := |files| - 1;
      PlacedLast(files[..last], files[last].(name := Stamped(stamp)));
    }
  }

  lemma {:induction false} RestIsBounded(files: Directory, maxBytes: nat)
    requires files != [] && Bounded(files, maxBytes)
    ensures Bounded(files[1..], maxBytes)
  {
    if |files| > 1 { assert files[1..][|files| - 2] == files[|files| - 1]; }
  }

  lemma {:induction false} StepKeepsBounded(s: Sys, step: Step, maxBytes: nat, w: Name)
    requires Inv(s) && Enabled(s, step) && Bounded(WriterOf(s, w).files, maxBytes)
    ensures Bounded(WriterOf(Next(s, step, maxBytes), w).files, maxBytes)
  {
    hide Bounded, Appended, Unlinked, Valid;
    assert InvFor(s, w);
    match step {
      case Append(v, line, stamp, inode, fault) =>
        if v == w {
          ListedOf(WriterOf(s, w));
          AppendKeepsBounded(WriterOf(s, w).files, WriterOf(s, w).lastStamp, line, maxBytes, stamp, inode, fault);
        }
      case Unlink(k) =>
        if s.pending[k][0].0 == w {
          HeadIsOldest(WriterOf(s, w), w, s.store, s.pass, s.pending, k);
          if WriterOf(s, w).files != [] { RestIsBounded(WriterOf(s, w).files, maxBytes); }
        }
      case _ =>
    }
  }

  lemma {:induction false} ListedOf(wr: Writer)
    requires Valid(wr)
    ensures Listed(wr.files, wr.lastStamp)
  {}

  /** In every reachable state the active file of every writer is within the limit, or holds one
      record that alone is larger. */
  lemma {:induction false} ActiveFilesAreBounded(steps: seq<Step>, maxBytes: nat, w: Name)
    requires Run(steps, maxBytes).Some?
    ensures Bounded(WriterOf(Run(steps, maxBytes).value, w).files, maxBytes)
  {
    hide Next, Enabled, Inv;
    if steps != [] {
      var before := steps[..|steps| - 1];
      ActiveFilesAreBounded(before, maxBytes, w);
      RunKeepsInv(before, maxBytes);
      StepKeepsBounded(Run(before, maxBytes).value, steps[|steps| - 1], maxBytes, w);
    }
  }
}
