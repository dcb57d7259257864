/** The scanner's redact: one labelled marker per merged span, everything else kept. */
module Redact {
  import opened Sequences
  import opened Spans

  /** Rebuilding with empty markers leaves exactly the characters that no finding covers. */
  lemma {:induction false} KeepsExactlyShown(text: string, hidden: seq<bool>, spans: seq<Span>, cursor: nat,
                                             touching: bool)
    requires Ahead(text, hidden, spans, cursor, touching)
    ensures Rebuild(text, spans, Blank(|spans|), cursor) == Shown(text, hidden, cursor)
    decreases |spans|
  {
    if spans == [] {
      hide Shown, Rebuild;
      assert forall p | cursor <= p < |text| :: !InSpans(spans, p);
      ShownAcrossGap(text, hidden, cursor, |text|);
      ShownNothing(text, hidden);
      RebuildNothing(text, cursor);
    } else {
      hide Shown, InSpans, Ahead;
      AheadOfFirst(text, hidden, spans, cursor, touching);
      ShownOverRun(text, hidden, cursor, spans[0]);
      KeepsExactlyShown(text, hidden, spans[1..], spans[0].end, touching);
      assert Blank(|spans|)[1..] == Blank(|spans| - 1);
      ConcatNothing(text[cursor..spans[0].start]);
    }
  }

  lemma {:induction false} ShownNothing(text: string, hidden: seq<bool>)
    requires |hidden| == |text|
    ensures Shown(text, hidden, |text|) == ""
  {}

  lemma {:induction false} RebuildNothing(text: string, cursor: nat)
    requires cursor <= |text|
    ensures Rebuild(text, [], Blank(0), cursor) == text[cursor..]
  {}

  function Blank(n: nat): seq<string> { seq(n, _ => "") }

  lemma {:induction false} ShownAcrossGap(text: string, hidden: seq<bool>, i: nat, j: nat)
    requires i <= j <= |text| == |hidden| && forall p | i <= p < j :: !hidden[p]
    ensures Shown(text, hidden, i) == text[i..j] + Shown(text, hidden, j)
    decreases j - i
  {
    if i < j {
      ShownAcrossGap(text, hidden, i + 1, j);
      assert text[i..j] == [text[i]] + text[i + 1..j];
      Associate([text[i]], text[i + 1..j], Shown(text, hidden, j));
    }
  }

  lemma {:induction false} ShownInsideRun(text: string, hidden: seq<bool>, i: nat, j: nat)
    requires i <= j <= |text| == |hidden| && forall p | i <= p < j :: hidden[p]
    ensures Shown(text, hidden, i) == Shown(text, hidden, j)
    decreases j - i
  {
    if i < j { ShownInsideRun(text, hidden, i + 1, j); }
  }

  lemma {:induction false} ShownOverRun(text: string, hidden: seq<bool>, cursor: nat, run: Span)
    requires cursor <= run.start < run.end <= |text| == |hidden|
    requires forall p | cursor <= p < run.start :: !hidden[p]
    requires forall p | run.start <= p < run.end :: hidden[p]
    ensures Shown(text, hidden, cursor) == text[cursor..run.start] + Shown(text, hidden, run.end)
  {
    ShownAcrossGap(text, hidden, cursor, run.start);
    ShownInsideRun(text, hidden, run.start, run.end);
  }

  /** Neither masking loses or reorders an uncovered character, and neither lets a covered one
      through: with the markers taken out, both leave exactly the uncovered text. */
  lemma {:induction false} MaskingDropsExactlyTheCovered(text: string, findings: seq<Finding>, touching: bool)
    requires InRange(findings, |text|)
    ensures var spans := Merge(Sort(findings), touching);
            Rebuild(text, spans, Blank(|spans|), 0) == Shown(text, Cover(findings, |text|), 0)
  {
    MergedAhead(text, findings, touching);
    KeepsExactlyShown(text, Cover(findings, |text|), Merge(Sort(findings), touching), 0, touching);
  }

  // ---- Labels ----

  /** The entity sets kept beside the spans. */
  function MergeLabels(sorted: seq<Finding>): (labels: seq<set<string>>)
    ensures |labels| == |Merge(sorted, false)|
  {
    if sorted == [] then []
    else
      var init := sorted[..|sorted| - 1];
      ExtendLabels(Merge(init, false), MergeLabels(init), sorted[|sorted| - 1])
  }

  predicate Inside(f: Finding, span: Span) { span.start <= f.start && f.end <= span.end }

  /** The entities of the findings that a span swallowed. */
  function EntitiesIn(fs: seq<Finding>, span: Span): set<string> {
    set f | f in fs && Inside(f, span) :: f.entity
  }

  ghost predicate Labelled(fs: seq<Finding>, spans: seq<Span>, labels: seq<set<string>>) {
    && EachInside(fs, spans) && |labels| == |spans|
    && forall k | 0 <= k < |spans| :: labels[k] == EntitiesIn(fs, spans[k])
  }

  ghost predicate EachInside(fs: seq<Finding>, spans: seq<Span>) {
    forall f | f in fs :: exists k | 0 <= k < |spans| :: Inside(f, spans[k])
  }

  /** Every finding lies inside one merged span, and a span's label set names exactly the
      entities of the findings inside it. */
  lemma {:induction false} LabelsAreEntities(fs: seq<Finding>, size: nat)
    requires Sorted(fs) && InRange(fs, size)
    ensures Labelled(fs, Merge(fs, false), MergeLabels(fs))
  {
    if fs != [] {
      var n := |fs| - 1;
      var init, f := fs[..n], fs[n];
      assert fs == init + [f];
      LabelsAreEntities(init, size);
      MergeIsUnion(init, false, size);
      MergeIsUnion(fs, false, size);
      ExtendKeepsLabels(init, Merge(init, false), MergeLabels(init), f);
    }
  }

  function ExtendLabels(spans: seq<Span>, labels: seq<set<string>>, f: Finding): (r: seq<set<string>>)
    requires |labels| == |spans|
    ensures |r| == |Extend(spans, f, false)|
  {
    var m := |spans|;
    if m > 0 && Joins(f, spans[m - 1], false) then labels[..m - 1] + [labels[m - 1] + {f.entity}]
    else labels + [{f.entity}]
  }

  lemma {:induction false} ExtendKeepsLabels(init: seq<Finding>, spans: seq<Span>, labels: seq<set<string>>, f: Finding)
    requires Labelled(init, spans, labels) && f.start < f.end && forall g | g in init :: g.start < g.end
    requires Separated(spans, false) && Separated(Extend(spans, f, false), false)
    requires spans != [] ==> spans[|spans| - 1].start <= f.start
    ensures Labelled(init + [f], Extend(spans, f, false), ExtendLabels(spans, labels, f))
  {
    ExtendKeepsInside(init, spans, f);
    var next := Extend(spans, f, false);
    forall k | 0 <= k < |next| ensures ExtendLabels(spans, labels, f)[k] == EntitiesIn(init + [f], next[k]) {
      EntitiesAfter(init, spans, f, k);
    }
  }

  lemma {:induction false} ExtendKeepsInside(init: seq<Finding>, spans: seq<Span>, f: Finding)
    requires EachInside(init, spans) && f.start < f.end
    requires spans != [] ==> spans[|spans| - 1].start <= f.start
    ensures EachInside(init + [f], Extend(spans, f, false))
  {
    var next := Extend(spans, f, false);
    forall g | g in init + [f] ensures exists k | 0 <= k < |next| :: Inside(g, next[k]) {
      if g in init {
        var k :| 0 <= k < |spans| && Inside(g, spans[k]);
        assert Inside(g, next[k]);
      } else {
        assert Inside(g, next[|next| - 1]);
      }
    }
  }

  lemma {:induction false} EntitiesAfter(init: seq<Finding>, spans: seq<Span>, f: Finding, k: nat)
    requires Separated(spans, false) && Separated(Extend(spans, f, false), false)
    requires EachInside(init, spans) && f.start < f.end && forall g | g in init :: g.start < g.end
    requires spans != [] ==> spans[|spans| - 1].start <= f.start
    requires k < |Extend(spans, f, false)|
    ensures var next, m := Extend(spans, f, false), |spans|;
            var joined := m > 0 && Joins(f, spans[m - 1], false);
            EntitiesIn(init + [f], next[k])
              == (if k < |next| - 1 then EntitiesIn(init, spans[k])
                  else if joined then EntitiesIn(init, spans[m - 1]) + {f.entity}
                  else {f.entity})
  {
    var next, m := Extend(spans, f, false), |spans|;
    var joined := m > 0 && Joins(f, spans[m - 1], false);
    forall g | g in init ensures Inside(g, next[k]) <==> k < m && Inside(g, spans[k]) {
      var j :| 0 <= j < m && Inside(g, spans[j]);
      assert j < k ==> spans[j].end <= next[k].start;
      assert k < j ==> next[k].end <= spans[j].start;
    }
    assert Inside(f, next[k]) <==> k == |next| - 1;
    assert forall g | g in init + [f] :: g in init || g == f;
    assert forall g | g in init :: g in init + [f];
    assert f in init + [f];
  }

  lemma {:induction false} OnlyMember(labels: set<string>, x: string, y: string)
    requires |labels| == 1 && x in labels && y in labels
    ensures x == y
  {
    var rest := labels - {x};
    assert |rest| == 0;
    assert y !in rest;
  }

  lemma {:induction false} OneMember(labels: set<string>)
    requires |labels| == 1
    ensures exists x :: x in labels
    ensures forall x, y | x in labels && y in labels :: x == y
  {
    forall x, y | x in labels && y in labels ensures x == y { OnlyMember(labels, x, y); }
    assert labels != {};
  }

  /** One entity gives its name, several give the generic label. */
  function Marker(labels: set<string>): string {
    if |labels| == 1 then
      OneMember(labels);
      var entity :| entity in labels;
      "<redacted:" + entity + ">"
    else "<redacted:PII>"
  }

  function MarkersOf(labels: seq<set<string>>): seq<string> {
    seq(|labels|, i requires 0 <= i < |labels| => Marker(labels[i]))
  }

  /** The scanner's redact over the sorted findings of analyze. */
  method RedactText(text: string, findings: seq<Finding>) returns (result: string)
    requires InRange(findings, |text|) && Sorted(findings)
    ensures var spans, labels := Merge(findings, false), MergeLabels(findings);
            && result == Rebuild(text, spans, MarkersOf(labels), 0)
            && Rebuild(text, spans, Blank(|spans|), 0) == Shown(text, Cover(findings, |text|), 0)
            && (forall k | 0 <= k < |spans| :: labels[k] == EntitiesIn(findings, spans[k]))
  {
    hide Merge, MergeLabels, Rebuild, Shown, EntitiesIn, Blank, MarkersOf;
    var spans, labels := MergeWithLabels(findings);
    LabelsAreEntities(findings, |text|);
    MergeIsUnion(findings, false, |text|);
    KeepsExactlyShown(text, Cover(findings, |text|), spans, 0, false);
    result := JoinChunks(text, spans, labels);
  }

  method MergeWithLabels(sorted: seq<Finding>) returns (spans: seq<Span>, labels: seq<set<string>>)
    ensures spans == Merge(sorted, false) && labels == MergeLabels(sorted)
  {
    spans, labels := [], [];
    for i := 0 to |sorted|
      invariant spans == Merge(sorted[..i], false) && labels == MergeLabels(sorted[..i])
    {
      var f, n := sorted[i], |spans|;
      assert sorted[..i + 1][..i] == sorted[..i];
      assert Merge(sorted[..i + 1], false) == Extend(spans, f, false);
      assert MergeLabels(sorted[..i + 1]) == ExtendLabels(spans, labels, f);
      if n > 0 && f.start < spans[n - 1].end {
        UpdateLast(spans, Span(spans[n - 1].start, Max(spans[n - 1].end, f.end)));
        UpdateLast(labels, labels[n - 1] + {f.entity});
        spans := spans[n - 1 := Span(spans[n - 1].start, Max(spans[n - 1].end, f.end))];
        labels := labels[n - 1 := labels[n - 1] + {f.entity}];
      } else {
        spans, labels := spans + [Span(f.start, f.end)], labels + [{f.entity}];
      }
    }
    assert sorted[..|sorted|] == sorted;
  }

  lemma {:induction false} UpdateLast<T>(s: seq<T>, x: T)
    requires s != []
    ensures s[|s| - 1 := x] == s[..|s| - 1] + [x]
  {}

  method JoinChunks(text: string, spans: seq<Span>, labels: seq<set<string>>) returns (result: string)
    requires |labels| == |spans|
    ensures result == Rebuild(text, spans, MarkersOf(labels), 0)
  {
    result := "";
    var cursor := 0;
    for k := 0 to |spans|
      invariant Rebuild(text, spans, MarkersOf(labels), 0)
             == result + Rebuild(text, spans[k..], MarkersOf(labels[k..]), cursor)
    {
      assert spans[k..][1..] == spans[k + 1..];
      assert MarkersOf(labels[k..])[1..] == MarkersOf(labels[k + 1..]);
      var chunk, marker := Slice(text, cursor, spans[k].start), Marker(labels[k]);
      Associate(result, chunk + marker, Rebuild(text, spans[k + 1..], MarkersOf(labels[k + 1..]), spans[k].end));
      Associate(result, chunk, marker);
      result := result + chunk + marker;
      cursor := spans[k].end;
    }
    result := result + Slice(text, cursor, |text|);
  }
}
