/** Rewriting the fragments of one lane: detection runs on the joined text, masks are written
    back into the fragments. */
module Lanes {
  import opened Spans

  function Join(fragments: seq<string>): string {
    if fragments == [] then "" else fragments[0] + Join(fragments[1..])
  }

  lemma {:induction false} JoinConcat(a: seq<string>, b: seq<string>)
    ensures Join(a + b) == Join(a) + Join(b)
  {
    if a == [] {
      assert a + b == b;
    } else {
      JoinConcat(a[1..], b);
      assert (a + b)[1..] == a[1..] + b;
    }
  }

  /** The text with exactly the covered positions starred. */
  function Starred(text: string, findings: seq<Finding>): (r: string)
    ensures |r| == |text|
  {
    seq(|text|, i requires 0 <= i < |text| => if Covered(findings, i) then '*' else text[i])
  }

  /** The part of a starred text that belongs to one fragment. */
  function StarredPart(fragment: string, offset: nat, findings: seq<Finding>): (r: string)
    ensures |r| == |fragment|
  {
    seq(|fragment|, i requires 0 <= i < |fragment| => if Covered(findings, offset + i) then '*' else fragment[i])
  }

  /** Does some finding reach into the fragment at this offset? */
  predicate Touches(f: Finding, offset: nat, size: nat) { f.start < offset + size && f.end > offset }

  method RewriteFragment(fragment: string, offset: nat, findings: seq<Finding>) returns (r: string, touched: bool)
    requires forall k | 0 <= k < |findings| :: findings[k].start < findings[k].end
    ensures r == StarredPart(fragment, offset, findings)
    ensures touched == exists k | 0 <= k < |findings| :: Touches(findings[k], offset, |fragment|)
  {
    var spans := ClippedSpans(findings, offset, |fragment|);
    touched := spans != [];
    if !touched {
      r := fragment;
      forall i | 0 <= i < |fragment| ensures StarredPart(fragment, offset, findings)[i] == fragment[i] {
        ClippedCover(findings, offset, |fragment|, i);
      }
      assert StarredPart(fragment, offset, findings) == fragment;
      return;
    }
    var mask := new bool[|fragment|](_ => false);
    for k := 0 to |spans|
      invariant forall i | 0 <= i < mask.Length :: mask[i] == InSpans(spans[..k], i)
    {
      PaintRange(mask, spans[k]);
      assert spans[..k + 1] == spans[..k] + [spans[k]];
      forall i: nat
        ensures InSpans(spans[..k + 1], i) <==> InSpans(spans[..k], i) || spans[k].start <= i < spans[k].end
      {
        InSpansLast(spans[..k], spans[k], i);
      }
    }
    assert spans[..|spans|] == spans;
    forall i | 0 <= i < |fragment| ensures mask[i] == Covered(findings, offset + i) {
      ClippedCover(findings, offset, |fragment|, i);
    }
    r := seq(|fragment|, i requires 0 <= i < |fragment| reads mask => if mask[i] then '*' else fragment[i]);
  }

  /** mask[start:end] = [True] * (end - start) */
  method PaintRange(mask: array<bool>, span: Span)
    requires span.start <= span.end <= mask.Length
    modifies mask
    ensures forall i | 0 <= i < mask.Length :: mask[i] == (old(mask[i]) || span.start <= i < span.end)
  {
    for i := span.start to span.end
      invariant forall j | 0 <= j < mask.Length :: mask[j] == (old(mask[j]) || span.start <= j < i)
    {
      mask[i] := true;
    }
  }

  function Clip(f: Finding, offset: nat, size: nat): (s: Span)
    requires Touches(f, offset, size)
    ensures s.end <= size
  {
    Span(if f.start > offset then f.start - offset else 0, if f.end - offset < size then f.end - offset else size)
  }

  function ClippedSpans(findings: seq<Finding>, offset: nat, size: nat): (spans: seq<Span>)
    ensures forall k | 0 <= k < |spans| :: spans[k].end <= size
    ensures (forall k | 0 <= k < |findings| :: findings[k].start < findings[k].end) ==>
            (forall k | 0 <= k < |spans| :: spans[k].start <= spans[k].end)
    ensures spans != [] <==> exists k | 0 <= k < |findings| :: Touches(findings[k], offset, size)
  {
    if findings == [] then []
    else
      var rest := ClippedSpans(findings[1..], offset, size);
      assert findings == [findings[0]] + findings[1..];
      if Touches(findings[0], offset, size) then [Clip(findings[0], offset, size)] + rest else rest
  }

  lemma {:induction false} CoveredCons(f: Finding, rest: seq<Finding>, i: nat)
    ensures Covered([f] + rest, i) <==> f.start <= i < f.end || Covered(rest, i)
  {
    var all := [f] + rest;
    if Covered(rest, i) {
      var k :| 0 <= k < |rest| && rest[k].start <= i < rest[k].end;
      assert all[k + 1] == rest[k];
    }
    if f.start <= i < f.end { assert all[0] == f; }
  }

  lemma {:induction false} InSpansCons(s: Span, rest: seq<Span>, i: nat)
    ensures InSpans([s] + rest, i) <==> s.start <= i < s.end || InSpans(rest, i)
  {
    var all := [s] + rest;
    if InSpans(rest, i) {
      var k :| 0 <= k < |rest| && rest[k].start <= i < rest[k].end;
      assert all[k + 1] == rest[k];
    }
    if s.start <= i < s.end { assert all[0] == s; }
  }

  lemma {:induction false} ClippedCover(findings: seq<Finding>, offset: nat, size: nat, i: nat)
    requires i < size
    ensures InSpans(ClippedSpans(findings, offset, size), i) <==> Covered(findings, offset + i)
  {
    if findings != [] {
      var f, rest := findings[0], findings[1..];
      assert findings == [f] + rest;
      ClippedCover(rest, offset, size, i);
      CoveredCons(f, rest, offset + i);
      if Touches(f, offset, size) { InSpansCons(Clip(f, offset, size), ClippedSpans(rest, offset, size), i); }
    }
  }

  // ---- A whole lane ----

  function StarredLane(fragments: seq<string>, offset: nat, findings: seq<Finding>): seq<string> {
    if fragments == [] then []
    else [StarredPart(fragments[0], offset, findings)] + StarredLane(fragments[1..], offset + |fragments[0]|, findings)
  }

  /** The loop over a text lane's references; changed is set as soon as a fragment is touched. */
  method RewriteLane(fragments: seq<string>, findings: seq<Finding>) returns (r: seq<string>, changed: bool)
    requires InRange(findings, |Join(fragments)|)
    ensures r == StarredLane(fragments, 0, findings)
    ensures changed <==> findings != []
  {
    var offset: nat := 0;
    r, changed := [], false;
    for i := 0 to |fragments|
      invariant StarredLane(fragments, 0, findings) == r + StarredLane(fragments[i..], offset, findings)
      invariant offset + |Join(fragments[i..])| == |Join(fragments)|
      invariant changed <==> exists k | 0 <= k < |findings| :: findings[k].start < offset
    {
      assert fragments[i..][1..] == fragments[i + 1..];
      var part, hit := RewriteFragment(fragments[i], offset, findings);
      r, changed := r + [part], changed || hit;
      offset := offset + |fragments[i]|;
    }
    if findings != [] { assert findings[0].start < offset; }
  }

  /** However a lane is cut into fragments, each fragment keeps its length and together they
      spell the joined text with exactly the covered positions starred. */
  lemma {:induction false} FragmentsSpellStarredText(fragments: seq<string>, before: string, findings: seq<Finding>)
    ensures var r := StarredLane(fragments, |before|, findings);
            && |r| == |fragments|
            && (forall i | 0 <= i < |r| :: |r[i]| == |fragments[i]|)
            && Join(r) == Starred(before + Join(fragments), findings)[|before|..]
  {
    if fragments != [] {
      var head, rest := fragments[0], fragments[1..];
      FragmentsSpellStarredText(rest, before + head, findings);
      assert before + Join(fragments) == before + head + Join(rest);
      StarredSplits(before, head, Join(rest), findings);
    }
  }

  lemma {:induction false} StarredSplits(before: string, head: string, tail: string, findings: seq<Finding>)
    ensures var all := Starred(before + head + tail, findings);
            all[|before|..] == StarredPart(head, |before|, findings) + all[|before + head|..]
  {}

  /** Two ways of cutting the same text are masked to the same text. */
  lemma {:induction false} CuttingDoesNotMatter(a: seq<string>, b: seq<string>, findings: seq<Finding>)
    requires Join(a) == Join(b)
    ensures Join(StarredLane(a, 0, findings)) == Join(StarredLane(b, 0, findings)) == Starred(Join(a), findings)
  {
    FragmentsSpellStarredText(a, "", findings);
    FragmentsSpellStarredText(b, "", findings);
    assert "" + Join(a) == Join(a);
  }

  // ---- JSON lanes ----

  /** The pieces of a replacement: as long as the old fragments, the last taking what is left. */
  function Pieces(fragments: seq<string>, replacement: string, cursor: nat): seq<string> {
    if fragments == [] then []
    else
      var end := if |fragments| == 1 then |replacement| else cursor + |fragments[0]|;
      [Slice(replacement, cursor, end)] + Pieces(fragments[1..], replacement, end)
  }

  method Redistribute(fragments: seq<string>, replacement: string) returns (r: seq<string>)
    ensures r == Pieces(fragments, replacement, 0)
  {
    r := [];
    var cursor: nat := 0;
    for i := 0 to |fragments|
      invariant Pieces(fragments, replacement, 0) == r + Pieces(fragments[i..], replacement, cursor)
    {
      assert fragments[i..][1..] == fragments[i + 1..];
      var end := if i == |fragments| - 1 then |replacement| else cursor + |fragments[i]|;
      r := r + [Slice(replacement, cursor, end)];
      cursor := end;
    }
  }

  lemma {:induction false} SliceSplits(text: string, i: nat, j: nat)
    requires i <= j
    ensures Slice(text, i, j) + Slice(text, j, |text|) == Slice(text, i, |text|)
  {}

  lemma {:induction false} JoinFirst(first: string, rest: seq<string>)
    ensures Join([first] + rest) == first + Join(rest)
  {
    assert ([first] + rest)[1..] == rest;
  }

  /** Shorter or longer than the original, the replacement survives the redistribution. */
  lemma {:induction false} PiecesSpellReplacement(fragments: seq<string>, replacement: string, cursor: nat)
    requires fragments != []
    ensures var r := Pieces(fragments, replacement, cursor);
            |r| == |fragments| && Join(r) == Slice(replacement, cursor, |replacement|)
  {
    hide Slice, Join;
    if |fragments| > 1 {
      var end := cursor + |fragments[0]|;
      PiecesSpellReplacement(fragments[1..], replacement, end);
      SliceSplits(replacement, cursor, end);
      JoinFirst(Slice(replacement, cursor, end), Pieces(fragments[1..], replacement, end));
    } else {
      assert fragments[1..] == [];
      assert Pieces(fragments, replacement, cursor) == [Slice(replacement, cursor, |replacement|)];
      JoinOne(Slice(replacement, cursor, |replacement|));
    }
  }

  lemma {:induction false} JoinOne(text: string)
    ensures Join([text]) == text
  {
    assert [text][1..] == [];
  }
}
