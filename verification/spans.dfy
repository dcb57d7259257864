/** Masking of detected spans: interval merging and reverse splicing, against references that
    look at one character position at a time. */
module Spans {
  import opened Sequences

  /** A detector result: character positions start <= i < end. */
  datatype Finding = Finding(entity: string, start: nat, end: nat)

  datatype Span = Span(start: nat, end: nat)

  /** What the detector promises of its findings in a text. */
  predicate InRange(findings: seq<Finding>, size: nat) {
    forall i | 0 <= i < |findings| :: findings[i].start < findings[i].end <= size
  }

  predicate Covered(findings: seq<Finding>, i: nat) {
    exists k | 0 <= k < |findings| :: findings[k].start <= i < findings[k].end
  }

  predicate InSpans(spans: seq<Span>, i: nat) {
    exists k | 0 <= k < |spans| :: spans[k].start <= i < spans[k].end
  }

  // ---- sorted(findings, key=lambda f: (f.start, f.end)) ----

  predicate Before(f: Finding, g: Finding) { f.start < g.start || (f.start == g.start && f.end <= g.end) }

  predicate Sorted(fs: seq<Finding>) { forall i, j | 0 <= i < j < |fs| :: Before(fs[i], fs[j]) }

  function Insert(f: Finding, fs: seq<Finding>): seq<Finding> {
    if fs == [] || Before(f, fs[0]) then [f] + fs else [fs[0]] + Insert(f, fs[1..])
  }

  function Sort(fs: seq<Finding>): seq<Finding> {
    if fs == [] then [] else Insert(fs[0], Sort(fs[1..]))
  }

  lemma {:induction false} InsertKeeps(f: Finding, fs: seq<Finding>)
    ensures multiset(Insert(f, fs)) == multiset(fs) + multiset{f}
  {
    if fs != [] && !Before(f, fs[0]) {
      InsertKeeps(f, fs[1..]);
      SplitFirst(fs);
    }
  }

  lemma {:induction false} InsertSorted(f: Finding, fs: seq<Finding>)
    requires Sorted(fs)
    ensures Sorted(Insert(f, fs))
  {
    if fs != [] && !Before(f, fs[0]) {
      InsertSorted(f, fs[1..]);
      InsertKeeps(f, fs[1..]);
      var r := Insert(f, fs[1..]);
      forall j | 0 <= j < |r| ensures Before(fs[0], r[j]) {
        assert r[j] in multiset(r);
        assert r[j] in multiset(fs[1..]) || r[j] == f;
      }
    }
  }

  lemma {:induction false} SortIsSorted(fs: seq<Finding>)
    ensures Sorted(Sort(fs)) && multiset(Sort(fs)) == multiset(fs)
  {
    if fs != [] {
      SortIsSorted(fs[1..]);
      InsertSorted(fs[0], Sort(fs[1..]));
      InsertKeeps(fs[0], Sort(fs[1..]));
      SplitFirst(fs);
    }
  }

  lemma {:induction false} SameFindingsSameCover(fs: seq<Finding>, gs: seq<Finding>, size: nat)
    requires multiset(fs) == multiset(gs) && InRange(fs, size)
    ensures InRange(gs, size)
    ensures forall i: nat :: Covered(fs, i) <==> Covered(gs, i)
  {
    forall k | 0 <= k < |gs| ensures gs[k] in fs { assert gs[k] in multiset(gs); }
    forall k | 0 <= k < |fs| ensures fs[k] in gs { assert fs[k] in multiset(fs); }
  }

  // ---- Merging ----

  /** Spans in order with a gap between neighbours: of at least one position when touching spans
      are joined (_mask), possibly empty when they are not (redact). */
  predicate Separated(spans: seq<Span>, touching: bool) {
    && (forall k | 0 <= k < |spans| :: spans[k].start < spans[k].end)
    && (forall j, k | 0 <= j < k < |spans| ::
          spans[j].end < spans[k].start || (!touching && spans[j].end == spans[k].start))
  }

  predicate Joins(f: Finding, last: Span, touching: bool) {
    f.start < last.end || (touching && f.start == last.end)
  }

  function Max(a: nat, b: nat): nat { if a > b then a else b }

  /** The loop over sorted findings, one finding at a time. */
  function Extend(spans: seq<Span>, f: Finding, touching: bool): seq<Span> {
    var n := |spans|;
    if n > 0 && Joins(f, spans[n - 1], touching)
    then spans[..n - 1] + [Span(spans[n - 1].start, Max(spans[n - 1].end, f.end))]
    else spans + [Span(f.start, f.end)]
  }

  function Merge(sorted: seq<Finding>, touching: bool): seq<Span> {
    if sorted == [] then []
    else Extend(Merge(sorted[..|sorted| - 1], touching), sorted[|sorted| - 1], touching)
  }

  lemma {:induction false} CoveredLast(init: seq<Finding>, f: Finding, i: nat)
    ensures Covered(init + [f], i) <==> Covered(init, i) || f.start <= i < f.end
  {
    var fs := init + [f];
    if Covered(init, i) {
      var k :| 0 <= k < |init| && init[k].start <= i < init[k].end;
      assert fs[k] == init[k];
    }
    if f.start <= i < f.end { assert fs[|init|] == f; }
  }

  /** After merging, the spans are sorted, disjoint, and cover what the findings cover. */
  lemma {:induction false} MergeIsUnion(fs: seq<Finding>, touching: bool, size: nat)
    requires Sorted(fs) && InRange(fs, size)
    ensures var spans := Merge(fs, touching);
            && Separated(spans, touching)
            && (forall i: nat :: InSpans(spans, i) <==> Covered(fs, i))
            && (forall k | 0 <= k < |spans| :: spans[k].end <= size)
            && (fs != [] ==> spans != [] && spans[|spans| - 1].start <= fs[|fs| - 1].start)
  {
    hide Extend;
    if fs != [] {
      var n := |fs| - 1;
      var init, f := fs[..n], fs[n];
      SplitLast(fs);
      MergeIsUnion(init, touching, size);
      ExtendCovers(Merge(init, touching), f, touching, size);
      forall i: nat ensures Covered(fs, i) <==> Covered(init, i) || f.start <= i < f.end {
        CoveredLast(init, f, i);
      }
    }
  }

  lemma {:induction false} ExtendCoversAt(spans: seq<Span>, f: Finding, touching: bool, i: nat)
    requires Separated(spans, touching) && f.start < f.end
    requires spans != [] ==> spans[|spans| - 1].start <= f.start
    ensures InSpans(Extend(spans, f, touching), i) <==> InSpans(spans, i) || f.start <= i < f.end
  {
    var r, n := Extend(spans, f, touching), |spans|;
    if n > 0 && Joins(f, spans[n - 1], touching) {
      InSpansLast(spans[..n - 1], spans[n - 1], i);
      InSpansLast(spans[..n - 1], r[n - 1], i);
      SplitLast(spans);
    } else {
      InSpansLast(spans, Span(f.start, f.end), i);
    }
  }

  lemma {:induction false} ExtendCovers(spans: seq<Span>, f: Finding, touching: bool, size: nat)
    requires Separated(spans, touching) && f.start < f.end <= size
    requires forall k | 0 <= k < |spans| :: spans[k].end <= size
    requires spans != [] ==> spans[|spans| - 1].start <= f.start
    ensures var r := Extend(spans, f, touching);
            && Separated(r, touching)
            && (forall i: nat :: InSpans(r, i) <==> InSpans(spans, i) || f.start <= i < f.end)
            && (forall k | 0 <= k < |r| :: r[k].end <= size)
            && r != [] && r[|r| - 1].start <= f.start
  {
    forall i: nat ensures InSpans(Extend(spans, f, touching), i) <==> InSpans(spans, i) || f.start <= i < f.end {
      ExtendCoversAt(spans, f, touching, i);
    }
  }

  lemma {:induction false} InSpansLast(spans: seq<Span>, last: Span, i: nat)
    ensures InSpans(spans + [last], i) <==> InSpans(spans, i) || last.start <= i < last.end
  {
    var r := spans + [last];
    if InSpans(spans, i) {
      var k :| 0 <= k < |spans| && spans[k].start <= i < spans[k].end;
      assert r[k] == spans[k];
    }
    if last.start <= i < last.end { assert r[|spans|] == last; }
  }

  // ---- Left-to-right rebuilding ----

  const REDACTED := "[REDACTED]"

  /** Kept text, marker, kept text, ... from cursor on. */
  function Rebuild(text: string, spans: seq<Span>, markers: seq<string>, cursor: nat): string
    requires |markers| == |spans|
  {
    if spans == [] then Slice(text, cursor, |text|)
    else Slice(text, cursor, spans[0].start) + markers[0] + Rebuild(text, spans[1..], markers[1..], spans[0].end)
  }

  /** Python's text[a:b] for natural a and b. */
  function Slice(text: string, a: nat, b: nat): string {
    var hi := if b <= |text| then b else |text|;
    if a <= hi then text[a..hi] else []
  }

  function Markers(n: nat): seq<string> { seq(n, _ => REDACTED) }

  // ---- The reference: one position at a time ----

  /** Which positions of a text of this size the findings cover. */
  function Cover(findings: seq<Finding>, size: nat): (hidden: seq<bool>)
    ensures |hidden| == size
  {
    seq(size, i requires 0 <= i < size => Covered(findings, i))
  }

  /** From position i on: each maximal run of hidden positions is replaced by one marker, every
      other character is kept, in order. */
  function Masked(text: string, hidden: seq<bool>, i: nat): string
    requires i <= |text| == |hidden|
    decreases |text| - i
  {
    if i == |text| then []
    else if !hidden[i] then [text[i]] + Masked(text, hidden, i + 1)
    else (if i == 0 || !hidden[i - 1] then REDACTED else []) + Masked(text, hidden, i + 1)
  }

  /** The characters that are not hidden, in order. */
  function Shown(text: string, hidden: seq<bool>, i: nat): string
    requires i <= |text| == |hidden|
    decreases |text| - i
  {
    if i == |text| then []
    else (if hidden[i] then [] else [text[i]]) + Shown(text, hidden, i + 1)
  }

  lemma {:induction false} MaskedAcrossGap(text: string, hidden: seq<bool>, i: nat, j: nat)
    requires i <= j <= |text| == |hidden| && forall p | i <= p < j :: !hidden[p]
    ensures Masked(text, hidden, i) == text[i..j] + Masked(text, hidden, j)
    decreases j - i
  {
    if i < j {
      MaskedAcrossGap(text, hidden, i + 1, j);
      assert text[i..j] == [text[i]] + text[i + 1..j];
      Associate([text[i]], text[i + 1..j], Masked(text, hidden, j));
    }
  }

  lemma {:induction false} MaskedInsideRun(text: string, hidden: seq<bool>, i: nat, j: nat)
    requires 0 < i <= j <= |text| == |hidden| && forall p | i - 1 <= p < j :: hidden[p]
    ensures Masked(text, hidden, i) == Masked(text, hidden, j)
    decreases j - i
  {
    if i < j { MaskedInsideRun(text, hidden, i + 1, j); }
  }

  /** The spans still ahead of the cursor hidden exactly the hidden positions from there on. */
  ghost predicate Ahead(text: string, hidden: seq<bool>, spans: seq<Span>, cursor: nat, touching: bool) {
    && Separated(spans, touching) && cursor <= |text| == |hidden|
    && (forall k | 0 <= k < |spans| :: spans[k].end <= |text|)
    && (spans != [] ==> cursor <= spans[0].start)
    && (forall i | cursor <= i < |text| :: InSpans(spans, i) <==> hidden[i])
  }

  lemma {:induction false} AheadOfFirst(text: string, hidden: seq<bool>, spans: seq<Span>, cursor: nat, touching: bool)
    requires spans != [] && Ahead(text, hidden, spans, cursor, touching)
    ensures forall p | cursor <= p < spans[0].start :: !hidden[p]
    ensures forall p | spans[0].start <= p < spans[0].end :: hidden[p]
    ensures Ahead(text, hidden, spans[1..], spans[0].end, touching)
  {
    var a, b := spans[0].start, spans[0].end;
    forall p | cursor <= p < a ensures !hidden[p] { assert !InSpans(spans, p); }
    forall p | a <= p < b ensures hidden[p] { assert InSpans(spans, p); }
    forall i | b <= i < |text| ensures InSpans(spans[1..], i) <==> hidden[i] { TailSpans(spans, i); }
  }

  /** Rebuilding around joined spans is the reference. */
  lemma {:induction false} RebuildIsMasked(text: string, hidden: seq<bool>, spans: seq<Span>, cursor: nat)
    requires Ahead(text, hidden, spans, cursor, true)
    requires spans != [] ==> cursor == 0 || cursor < spans[0].start
    ensures Rebuild(text, spans, Markers(|spans|), cursor) == Masked(text, hidden, cursor)
    decreases |spans|
  {
    if spans == [] {
      assert forall p | cursor <= p < |text| :: !InSpans(spans, p);
      MaskedAcrossGap(text, hidden, cursor, |text|);
    } else {
      AheadOfFirst(text, hidden, spans, cursor, true);
      RunIsOneMarker(text, hidden, cursor, spans[0]);
      RebuildIsMasked(text, hidden, spans[1..], spans[0].end);
      assert Markers(|spans|)[1..] == Markers(|spans| - 1);
    }
  }

  lemma {:induction false} RunIsOneMarker(text: string, hidden: seq<bool>, cursor: nat, run: Span)
    requires cursor <= run.start < run.end <= |text| == |hidden| && (cursor == 0 || cursor < run.start)
    requires forall p | cursor <= p < run.start :: !hidden[p]
    requires forall p | run.start <= p < run.end :: hidden[p]
    ensures Masked(text, hidden, cursor) == text[cursor..run.start] + REDACTED + Masked(text, hidden, run.end)
  {
    MaskedAcrossGap(text, hidden, cursor, run.start);
    MaskedInsideRun(text, hidden, run.start + 1, run.end);
    Associate(text[cursor..run.start], REDACTED, Masked(text, hidden, run.end));
  }

  lemma {:induction false} TailSpans(spans: seq<Span>, i: nat)
    requires spans != [] && !(spans[0].start <= i < spans[0].end)
    ensures InSpans(spans[1..], i) <==> InSpans(spans, i)
  {
    if InSpans(spans, i) {
      var k :| 0 <= k < |spans| && spans[k].start <= i < spans[k].end;
      assert spans[1..][k - 1] == spans[k];
    }
    if InSpans(spans[1..], i) {
      var k :| 0 <= k < |spans| - 1 && spans[1..][k].start <= i < spans[1..][k].end;
      assert spans[k + 1] == spans[1..][k];
    }
  }

  // ---- _mask ----

  function Mask(text: string, findings: seq<Finding>): string {
    var spans := Merge(Sort(findings), true);
    Rebuild(text, spans, Markers(|spans|), 0)
  }

  /** What the engine's masking means, for findings in any order and overlap. */
  lemma {:induction false} MaskMeaning(text: string, findings: seq<Finding>)
    requires InRange(findings, |text|)
    ensures Mask(text, findings) == Masked(text, Cover(findings, |text|), 0)
  {
    MergedAhead(text, findings, true);
    RebuildIsMasked(text, Cover(findings, |text|), Merge(Sort(findings), true), 0);
  }

  lemma {:induction false} MergedAhead(text: string, findings: seq<Finding>, touching: bool)
    requires InRange(findings, |text|)
    ensures Ahead(text, Cover(findings, |text|), Merge(Sort(findings), touching), 0, touching)
  {
    var sorted := Sort(findings);
    SortIsSorted(findings);
    SameFindingsSameCover(findings, sorted, |text|);
    MergeIsUnion(sorted, touching, |text|);
  }

  // ---- When masking leaves a text as it is ----

  predicate MarkerAt(text: string, p: nat) { p + |REDACTED| <= |text| && text[p..p + |REDACTED|] == REDACTED }

  /** Does the text spell the marker anywhere? */
  ghost predicate SpellsMarker(text: string) { exists p: nat :: MarkerAt(text, p) }

  function Earliest(fs: seq<Finding>): (f: Finding)
    requires fs != []
    ensures f in fs && forall g | g in fs :: f.start <= g.start
  {
    if |fs| == 1 then fs[0]
    else
      assert fs == [fs[0]] + fs[1..];
      var rest := Earliest(fs[1..]);
      if fs[0].start <= rest.start then fs[0] else rest
  }

  /** The reference writes the marker at the first covered position. */
  lemma {:induction false} FirstRunIsMarked(text: string, fs: seq<Finding>)
    requires InRange(fs, |text|) && fs != []
    ensures MarkerAt(Masked(text, Cover(fs, |text|), 0), Earliest(fs).start)
  {
    var f, hidden := Earliest(fs), Cover(fs, |text|);
    var p := f.start;
    forall q | 0 <= q < p ensures !hidden[q] { assert !Covered(fs, q); }
    assert Covered(fs, p);
    MaskedAcrossGap(text, hidden, 0, p);
    var rest := Masked(text, hidden, p + 1);
    assert Masked(text, hidden, p) == REDACTED + rest;
    assert Masked(text, hidden, 0) == text[..p] + (REDACTED + rest);
  }

  /** If masking findings, in any number and overlap, leaves a text as it is, then the text spells
      the marker where the earliest finding starts. */
  lemma {:induction false} UnchangedSpellsMarker(text: string, fs: seq<Finding>)
    requires InRange(fs, |text|) && fs != [] && Mask(text, fs) == text
    ensures MarkerAt(text, Earliest(fs).start)
  {
    MaskMeaning(text, fs);
    FirstRunIsMarked(text, fs);
  }

  lemma {:induction false} MaskOfNothing(text: string)
    ensures Mask(text, []) == text
  {}

  /** Masking one span leaves the text alone exactly when the span already spelled the marker. */
  lemma {:induction false} OneSpanMaskIsInvisibleIff(text: string, f: Finding)
    requires f.start < f.end <= |text|
    ensures Mask(text, [f]) == text <==> text[f.start..f.end] == REDACTED
  {
    var masked := text[..f.start] + REDACTED + text[f.end..];
    assert Sort([f]) == [f] by { assert [f][1..] == []; }
    assert Merge([f], true) == [Span(f.start, f.end)] by { assert [f][..0] == []; }
    assert Mask(text, [f]) == masked by {
      var spans := [Span(f.start, f.end)];
      assert spans[1..] == [] && Markers(1)[1..] == [] && Markers(1)[0] == REDACTED;
      assert Rebuild(text, [], [], f.end) == text[f.end..];
      assert Rebuild(text, spans, Markers(1), 0) == text[0..f.start] + REDACTED + text[f.end..];
    }
    assert text == text[..f.start] + text[f.start..f.end] + text[f.end..];
    if masked == text {
      assert |masked| == |text|;
      assert masked[f.start..f.end] == REDACTED;
    }
  }

  /** In a text that does not spell the marker, "unchanged" and "no findings" are the same. */
  lemma {:induction false} UnchangedIffNoFindings(text: string, fs: seq<Finding>)
    requires InRange(fs, |text|) && !SpellsMarker(text)
    ensures Mask(text, fs) == text <==> fs == []
  {
    if fs == [] {
      MaskOfNothing(text);
    } else if Mask(text, fs) == text {
      UnchangedSpellsMarker(text, fs);
    }
  }

  /** "Unchanged implies no findings", whatever the detector reports. */
  ghost predicate UnchangedMeansClean(text: string) {
    forall fs: seq<Finding> | InRange(fs, |text|) && Mask(text, fs) == text :: fs == []
  }

  /** The exact condition on the text: it must not spell the marker. */
  lemma {:induction false} UnchangedMeansCleanIff(text: string)
    ensures UnchangedMeansClean(text) <==> !SpellsMarker(text)
  {
    if SpellsMarker(text) {
      var p: nat :| MarkerAt(text, p);
      var f := Finding("", p, p + |REDACTED|);
      OneSpanMaskIsInvisibleIff(text, f);
      assert InRange([f], |text|) && Mask(text, [f]) == text;
    } else {
      forall fs: seq<Finding> | InRange(fs, |text|) && Mask(text, fs) == text ensures fs == [] {
        UnchangedIffNoFindings(text, fs);
      }
    }
  }

  /** Merging as the program does it, over sorted findings. */
  method MergeSorted(sorted: seq<Finding>, touching: bool) returns (spans: seq<Span>)
    ensures spans == Merge(sorted, touching)
  {
    spans := [];
    for i := 0 to |sorted|
      invariant spans == Merge(sorted[..i], touching)
    {
      var f, n := sorted[i], |spans|;
      assert sorted[..i + 1][..i] == sorted[..i];
      if n > 0 && Joins(f, spans[n - 1], touching) {
        spans := spans[n - 1 := Span(spans[n - 1].start, Max(spans[n - 1].end, f.end))];
      } else {
        spans := spans + [Span(f.start, f.end)];
      }
    }
    assert sorted[..|sorted|] == sorted;
  }

  /** Splicing from the last span backwards leaves the earlier positions valid. */
  method MaskText(text: string, findings: seq<Finding>) returns (result: string)
    requires InRange(findings, |text|)
    ensures result == Masked(text, Cover(findings, |text|), 0)
  {
    var spans := MergeSorted(Sort(findings), true);
    MergedAhead(text, findings, true);
    result := SpliceBackwards(text, spans);
    MaskMeaning(text, findings);
  }

  method SpliceBackwards(text: string, spans: seq<Span>) returns (result: string)
    requires Separated(spans, true) && forall k | 0 <= k < |spans| :: spans[k].end <= |text|
    ensures result == Rebuild(text, spans, Markers(|spans|), 0)
  {
    hide SplicedFrom, Splice, Rebuild;
    result := text;
    var k := |spans|;
    SplicedNothing(text, spans);
    while k > 0
      invariant 0 <= k <= |spans|
      invariant SplicedFrom(text, result, spans, k)
    {
      k := k - 1;
      SpliceStep(text, result, spans, k);
      result := Splice(result, spans[k]);
    }
    SplicedAll(text, result, spans);
  }

  /** text[:start] + "[REDACTED]" + text[end:] */
  function Splice(text: string, span: Span): string {
    Slice(text, 0, span.start) + REDACTED + Slice(text, span.end, |text|)
  }

  /** Spans k and later have been replaced, everything before them is untouched. */
  ghost predicate SplicedFrom(text: string, result: string, spans: seq<Span>, k: nat)
    requires k <= |spans|
  {
    var done := if k == 0 then 0 else spans[k - 1].end;
    && done <= |text| && done <= |result| && result[..done] == text[..done]
    && result[done..] == Rebuild(text, spans[k..], Markers(|spans| - k), done)
  }

  lemma {:induction false} SplicedNothing(text: string, spans: seq<Span>)
    requires forall j | 0 <= j < |spans| :: spans[j].end <= |text|
    ensures SplicedFrom(text, text, spans, |spans|)
  {
    assert spans[|spans|..] == [];
  }

  lemma {:induction false} SplicedAll(text: string, result: string, spans: seq<Span>)
    requires SplicedFrom(text, result, spans, 0)
    ensures result == Rebuild(text, spans, Markers(|spans|), 0)
  {
    assert spans[0..] == spans && result[0..] == result;
  }

  lemma {:induction false} SpliceStep(text: string, result: string, spans: seq<Span>, k: nat)
    requires Separated(spans, true) && k < |spans| && forall j | 0 <= j < |spans| :: spans[j].end <= |text|
    requires SplicedFrom(text, result, spans, k + 1)
    ensures SplicedFrom(text, Splice(result, spans[k]), spans, k)
  {
    var done := if k == 0 then 0 else spans[k - 1].end;
    var a, b := spans[k].start, spans[k].end;
    var next := Splice(result, spans[k]);
    assert result[..a] == text[..b][..a] == text[..a];
    assert spans[k..][1..] == spans[k + 1..];
    assert Markers(|spans| - k)[1..] == Markers(|spans| - k - 1);
    assert next[done..] == text[done..a] + REDACTED + result[b..];
    assert next[..done] == text[..done];
  }
}
