/** Framing and printing of a server-sent-events body (WHATWG HTML Standard, section 9.2), as the
    response inspector does it: split on blank lines, rewrite the data of some events, print. */
module Sse {
  import opened Sequences
  import opened Wrappers
  import opened Json

  // ---- str.split("\n\n"), str.split("\n") and their joins ----

  predicate BlankAt(s: string, i: nat) { i + 1 < |s| && s[i] == '\n' && s[i + 1] == '\n' }

  /** The first position of "\n\n", or |s|. */
  function FindBlank(s: string): (k: nat)
    ensures k <= |s|
    ensures k < |s| ==> BlankAt(s, k)
    ensures forall i | 0 <= i < k :: !BlankAt(s, i)
  {
    if s == "" || BlankAt(s, 0) then 0
    else
      var k := FindBlank(s[1..]);
      assert forall i | 0 <= i < k + 1 :: BlankAt(s, i) ==> i > 0 && BlankAt(s[1..], i - 1);
      1 + k
  }

  predicate NoBlank(s: string) { FindBlank(s) == |s| }

  function SplitBlank(s: string): (ps: seq<string>)
    ensures ps != []
    decreases |s|
  {
    var k := FindBlank(s);
    if k == |s| then [s] else [s[..k]] + SplitBlank(s[k + 2..])
  }

  function FindNewline(s: string): (k: nat)
    ensures k <= |s|
    ensures k < |s| ==> s[k] == '\n'
    ensures '\n' !in s[..k]
  {
    if s == "" || s[0] == '\n' then 0
    else
      assert s == [s[0]] + s[1..];
      1 + FindNewline(s[1..])
  }

  function SplitLines(s: string): (ls: seq<string>)
    ensures ls != []
    decreases |s|
  {
    var k := FindNewline(s);
    if k == |s| then [s] else [s[..k]] + SplitLines(s[k + 1..])
  }

  function JoinWith(separator: string, ps: seq<string>): string {
    if ps == [] then ""
    else if |ps| == 1 then ps[0]
    else ps[0] + separator + JoinWith(separator, ps[1..])
  }

  function JoinLines(ls: seq<string>): string { JoinWith("\n", ls) }

  function JoinBlank(ps: seq<string>): string { JoinWith("\n\n", ps) }

  // ---- Lines ----

  predicate IsLine(s: string) { '\n' !in s }

  predicate AreLines(ls: seq<string>) { forall i | 0 <= i < |ls| :: IsLine(ls[i]) }

  lemma {:induction false} SplitLinesAreLines(s: string)
    ensures AreLines(SplitLines(s)) && JoinLines(SplitLines(s)) == s
    decreases |s|
  {
    var k := FindNewline(s);
    if k == |s| {
      assert s[..k] == s;
    } else {
      SplitLinesAreLines(s[k + 1..]);
      assert s == s[..k] + "\n" + s[k + 1..];
    }
  }

  lemma {:induction false} FindNewlineAfter(line: string, rest: string)
    requires IsLine(line)
    ensures FindNewline(line + "\n" + rest) == |line| && FindNewline(line) == |line|
  {
    var s := line + "\n" + rest;
    var k := FindNewline(s);
    assert s[|line|] == '\n';
    assert forall i | 0 <= i < |line| :: s[i] == line[i];
    forall i | 0 <= i < k ensures s[i] != '\n' { assert s[i] == s[..k][i]; }
  }

  lemma {:induction false} SplitOfJoinedLines(ls: seq<string>)
    requires ls != [] && AreLines(ls)
    ensures SplitLines(JoinLines(ls)) == ls
  {
    if |ls| == 1 {
      FindNewlineAfter(ls[0], "");
    } else {
      var rest := JoinLines(ls[1..]);
      var s := ls[0] + "\n" + rest;
      FindNewlineAfter(ls[0], rest);
      assert s[..|ls[0]|] == ls[0] && s[|ls[0]| + 1..] == rest;
      SplitOfJoinedLines(ls[1..]);
    }
  }

  // ---- Events ----

  predicate EndsLine(s: string) { s != "" && s[|s| - 1] == '\n' }

  /** What splitting on blank lines produces: no blank line inside a piece, and no piece but the
      last ends with a newline. */
  ghost predicate Pieces(ps: seq<string>) {
    && ps != []
    && (forall i | 0 <= i < |ps| :: NoBlank(ps[i]))
    && (forall i | 0 <= i < |ps| - 1 :: !EndsLine(ps[i]))
  }

  lemma {:induction false} SplitBlankIsPieces(s: string)
    ensures Pieces(SplitBlank(s))
    decreases |s|
  {
    var k := FindBlank(s);
    if k < |s| {
      SplitBlankIsPieces(s[k + 2..]);
      PrefixHasNoBlank(s, k);
      assert k > 0 ==> !BlankAt(s, k - 1);
    }
  }

  lemma {:induction false} PrefixHasNoBlank(s: string, k: nat)
    requires k <= |s| && forall i | 0 <= i < k :: !BlankAt(s, i)
    ensures NoBlank(s[..k])
  {
    assert forall j | 0 <= j < k :: BlankAt(s[..k], j) ==> BlankAt(s, j);
  }

  lemma {:induction false} FindBlankAfter(piece: string, rest: string)
    requires NoBlank(piece) && !EndsLine(piece)
    ensures FindBlank(piece + "\n\n" + rest) == |piece|
  {
    var s := piece + "\n\n" + rest;
    assert BlankAt(s, |piece|);
    forall j | 0 <= j < |piece| ensures !BlankAt(s, j) {
      if j + 1 < |piece| { assert BlankAt(s, j) == BlankAt(piece, j); }
    }
  }

  lemma {:induction false} SplitJoin(head: string, rest: string)
    ensures var s := head + "\n\n" + rest;
            s[..|head|] == head && s[|head| + 2..] == rest
  {}

  lemma {:induction false} SplitOfJoinedPieces(ps: seq<string>)
    requires Pieces(ps)
    ensures SplitBlank(JoinBlank(ps)) == ps
  {
    if |ps| > 1 {
      var rest := JoinBlank(ps[1..]);
      FindBlankAfter(ps[0], rest);
      SplitJoin(ps[0], rest);
      SplitOfJoinedPieces(ps[1..]);
    }
  }

  /** text[:-2].split("\n\n"), each split into lines. */
  function Frame(text: string): seq<seq<string>>
    requires |text| >= 2
  {
    LinesOf(SplitBlank(text[..|text| - 2]))
  }

  function LinesOf(ps: seq<string>): seq<seq<string>> {
    seq(|ps|, i requires 0 <= i < |ps| => SplitLines(ps[i]))
  }

  // ---- Fields of a line ----

  function FindColon(line: string): (k: nat)
    ensures k <= |line| && ':' !in line[..k] && (k < |line| ==> line[k] == ':')
  {
    if line == "" || line[0] == ':' then 0
    else
      assert line == [line[0]] + line[1..];
      1 + FindColon(line[1..])
  }

  /** line.partition(":")[0] */
  function FieldName(line: string): string { line[..FindColon(line)] }

  /** The text after the colon without one leading space; empty when there is no colon. */
  function Contents(line: string): string {
    var k := FindColon(line);
    if k == |line| then ""
    else if k + 1 < |line| && line[k + 1] == ' ' then line[k + 2..]
    else line[k + 1..]
  }

  predicate IsData(line: string) { FieldName(line) == "data" }

  /** [line for line in lines if line.partition(":")[0] != "data"] */
  function Kept(lines: seq<string>): seq<string> {
    if lines == [] then []
    else (if IsData(lines[0]) then [] else [lines[0]]) + Kept(lines[1..])
  }

  function DataLines(lines: seq<string>): seq<string> {
    if lines == [] then []
    else (if IsData(lines[0]) then [Contents(lines[0])] else []) + DataLines(lines[1..])
  }

  function Data(lines: seq<string>): string { JoinLines(DataLines(lines)) }

  // ---- Printing ----

  /** An event to print: its lines, and the new payload if it carries JSON. */
  datatype Event = Event(lines: seq<string>, payload: Option<string>)

  function DataLine(payload: string): string { "data: " + payload }

  function Printed(e: Event): string {
    match e.payload
    case None => JoinLines(e.lines)
    case Some(payload) => JoinLines(Kept(e.lines) + [DataLine(payload)])
  }

  function PrintedAll(events: seq<Event>): seq<string> {
    seq(|events|, i requires 0 <= i < |events| => Printed(events[i]))
  }

  function Print(events: seq<Event>): string { JoinBlank(PrintedAll(events)) + "\n\n" }

  method PrintStream(events: seq<Event>) returns (text: string)
    ensures text == Print(events)
  {
    var output: seq<string> := [];
    for i := 0 to |events|
      invariant output == PrintedAll(events[..i])
    {
      assert events[..i + 1][..i] == events[..i];
      match events[i].payload {
        case None => output := output + [JoinLines(events[i].lines)];
        case Some(payload) =>
          var kept := KeepLines(events[i].lines);
          output := output + [JoinLines(kept + [DataLine(payload)])];
      }
    }
    assert events[..|events|] == events;
    text := JoinBlank(output) + "\n\n";
  }

  method KeepLines(lines: seq<string>) returns (kept: seq<string>)
    ensures kept == Kept(lines)
  {
    kept := [];
    for i := 0 to |lines|
      invariant Kept(lines) == kept + Kept(lines[i..])
    {
      assert lines[i..][0] == lines[i] && lines[i..][1..] == lines[i + 1..];
      if !IsData(lines[i]) { kept := kept + [lines[i]]; }
    }
  }

  // ---- The round trip ----

  lemma {:induction false} DataLineIsData(payload: string)
    ensures IsData(DataLine(payload)) && Contents(DataLine(payload)) == payload
  {
    var line := DataLine(payload);
    assert line[..4] == "data" && line[4] == ':' && line[5] == ' ' && line[6..] == payload;
    var k := FindColon(line);
    assert forall i | 0 <= i < 4 :: line[i] == line[..4][i] && line[i] != ':';
    assert forall i | 0 <= i < k :: line[i] in line[..k];
  }

  lemma {:induction false} KeptConcat(a: seq<string>, b: seq<string>)
    ensures Kept(a + b) == Kept(a) + Kept(b) && DataLines(a + b) == DataLines(a) + DataLines(b)
  {
    if a == [] {
      NothingConcat(b);
      NothingConcat(Kept(b));
      NothingConcat(DataLines(b));
    } else {
      hide IsData, Contents;
      TailConcat(a, b);
      KeptConcat(a[1..], b);
      Associate(if IsData(a[0]) then [] else [a[0]], Kept(a[1..]), Kept(b));
      Associate(if IsData(a[0]) then [Contents(a[0])] else [], DataLines(a[1..]), DataLines(b));
    }
  }

  lemma {:induction false} KeptOne(line: string)
    ensures Kept([line]) == if IsData(line) then [] else [line]
    ensures DataLines([line]) == if IsData(line) then [Contents(line)] else []
  {
    assert [line][1..] == [];
  }

  lemma {:induction false} KeptIsKept(lines: seq<string>)
    ensures Kept(Kept(lines)) == Kept(lines) && DataLines(Kept(lines)) == []
    ensures |Kept(lines)| <= |lines|
    ensures AreLines(lines) ==> AreLines(Kept(lines))
  {
    if lines != [] {
      KeptIsKept(lines[1..]);
      if IsData(lines[0]) {
        assert Kept(lines) == Kept(lines[1..]);
      } else {
        KeptConcat([lines[0]], Kept(lines[1..]));
        KeptOne(lines[0]);
      }
    }
  }

  /** Reading back one printed event. */
  lemma {:induction false} ReadBack(e: Event)
    requires e.lines != [] && AreLines(e.lines) && (e.payload.Some? ==> IsLine(e.payload.value))
    ensures var lines := SplitLines(Printed(e));
            && Kept(lines) == Kept(e.lines)
            && (e.payload.None? ==> lines == e.lines)
            && (e.payload.Some? ==> Data(lines) == e.payload.value)
  {
    hide SplitLines, Kept, DataLines, IsData, Contents;
    match e.payload
    case None => SplitOfJoinedLines(e.lines);
    case Some(payload) =>
      var line := DataLine(payload);
      KeptIsKept(e.lines);
      DataLineIsData(payload);
      KeptConcat(Kept(e.lines), [line]);
      SplitOfJoinedLines(Kept(e.lines) + [line]);
      KeptOne(line);
      ConcatNothing(Kept(e.lines));
      NothingConcat([payload]);
      assert JoinLines([payload]) == payload;
  }

  // ---- Where a printed event can break apart ----

  /** A blank line strictly inside a list of lines. */
  ghost predicate BlankInside(ls: seq<string>) { exists i | 0 < i < |ls| - 1 :: ls[i] == "" }

  lemma {:induction false} NewlineThen(line: string, rest: string)
    requires IsLine(line)
    ensures NoBlank(line + "\n" + rest) <==> NoBlank(rest) && !(rest != "" && rest[0] == '\n')
  {
    var s := line + "\n" + rest;
    forall j | 0 <= j < |s|
      ensures BlankAt(s, j) <==>
              (j == |line| && rest != "" && rest[0] == '\n') || (j > |line| && BlankAt(rest, j - |line| - 1))
    {
      if j < |line| { assert s[j] == line[j]; }
    }
    if FindBlank(rest) < |rest| { assert BlankAt(s, FindBlank(rest) + |line| + 1); }
    if rest != "" && rest[0] == '\n' { assert BlankAt(s, |line|); }
  }

  lemma {:induction false} JoinedHasBlankIff(ls: seq<string>)
    requires ls != [] && AreLines(ls)
    ensures NoBlank(JoinLines(ls)) <==> !BlankInside(ls)
  {
    if |ls| == 1 {
      assert forall i | 0 <= i < |ls[0]| :: !BlankAt(ls[0], i);
    } else {
      var tail := ls[1..];
      JoinedHasBlankIff(tail);
      NewlineThen(ls[0], JoinLines(tail));
      assert JoinLines(tail) != "" && JoinLines(tail)[0] == '\n' <==> |tail| > 1 && tail[0] == "" by {
        if tail[0] != "" { assert tail[0][0] in tail[0]; }
      }
      if BlankInside(tail) {
        var i :| 0 < i < |tail| - 1 && tail[i] == "";
        assert ls[i + 1] == "";
      }
      if BlankInside(ls) {
        var i :| 0 < i < |ls| - 1 && ls[i] == "";
        assert tail[i - 1] == "";
      }
    }
  }

  /** Blank lines at most at the very end. */
  ghost predicate BlankOnlyLast(ls: seq<string>) { forall i | 0 <= i < |ls| - 1 :: ls[i] != "" }

  predicate EndsBlank(ls: seq<string>) { ls != [] && ls[|ls| - 1] == "" }

  lemma {:induction false} KeptBlanks(lines: seq<string>)
    requires BlankOnlyLast(lines)
    ensures BlankOnlyLast(Kept(lines))
    ensures EndsBlank(lines) ==> EndsBlank(Kept(lines))
    ensures EndsBlank(Kept(lines)) ==> EndsBlank(lines)
  {
    if |lines| > 1 {
      KeptBlanks(lines[1..]);
    } else if |lines| == 1 {
      KeptOne(lines[0]);
      assert lines == [lines[0]];
    }
  }

  /** The one way a printed event breaks apart: it carries a payload, its block ended with a
      blank line, and another line that is not data precedes the moved data line. */
  predicate Breaks(e: Event) { e.payload.Some? && EndsBlank(e.lines) && |Kept(e.lines)| >= 2 }

  ghost predicate FromPiece(e: Event, piece: string) {
    && NoBlank(piece) && e.lines == SplitLines(piece)
    && (e.payload.Some? ==> IsLine(e.payload.value) && DataLines(e.lines) != [])
  }

  lemma {:induction false} PrintedBlankIff(e: Event, piece: string)
    requires FromPiece(e, piece)
    ensures NoBlank(Printed(e)) <==> !Breaks(e)
  {
    SplitLinesAreLines(piece);
    JoinedHasBlankIff(e.lines);
    if e.payload.Some? {
      KeptIsKept(e.lines);
      JoinedHasBlankIff(Kept(e.lines) + [DataLine(e.payload.value)]);
      KeptBlankInside(e.lines);
      KeptThenDataIff(e, Kept(e.lines), DataLine(e.payload.value));
    }
  }

  /** Appending the data line to the kept ones makes a blank one inner exactly when it was last. */
  lemma {:induction false} KeptThenDataIff(e: Event, kept: seq<string>, line: string)
    requires e.payload.Some? && kept == Kept(e.lines)
    requires forall i | 0 < i < |kept| && kept[i] == "" :: i == |kept| - 1 && EndsBlank(e.lines)
    requires EndsBlank(e.lines) ==> EndsBlank(kept)
    ensures BlankInside(kept + [line]) <==> Breaks(e)
  {
    if BlankInside(kept + [line]) {
      var i :| 0 < i < |kept| && (kept + [line])[i] == "";
      assert kept[i] == "";
    }
    if Breaks(e) { assert (kept + [line])[|kept| - 1] == ""; }
  }

  lemma {:induction false} KeptBlankInside(lines: seq<string>)
    requires lines != [] && !BlankInside(lines)
    ensures forall i | 0 < i < |Kept(lines)| && Kept(lines)[i] == "" :: i == |Kept(lines)| - 1 && EndsBlank(lines)
    ensures EndsBlank(lines) ==> EndsBlank(Kept(lines))
  {
    var tail := lines[1..];
    assert forall i | 0 <= i < |tail| - 1 :: tail[i] == lines[i + 1];
    KeptBlanks(tail);
    if tail == [] { assert lines == [lines[0]]; }
  }

  lemma {:induction false} PrintedEnds(e: Event, piece: string)
    requires FromPiece(e, piece) && !EndsLine(piece)
    ensures !EndsLine(Printed(e)) && !EndsBlankLong(e.lines)
  {
    SplitLinesAreLines(piece);
    JoinedEnds(e.lines);
    if e.payload.Some? {
      KeptIsKept(e.lines);
      JoinedEnds(Kept(e.lines) + [DataLine(e.payload.value)]);
    }
  }

  predicate EndsBlankLong(ls: seq<string>) { |ls| > 1 && ls[|ls| - 1] == "" }

  lemma {:induction false} JoinedEnds(ls: seq<string>)
    requires ls != [] && AreLines(ls)
    ensures EndsLine(JoinLines(ls)) <==> EndsBlankLong(ls)
  {
    if |ls| == 1 {
      if ls[0] != "" { assert ls[0][|ls[0]| - 1] in ls[0]; }
    } else {
      JoinedEnds(ls[1..]);
      var rest := JoinLines(ls[1..]);
      if |ls| == 2 {
        if rest != "" { assert rest[|rest| - 1] in ls[1]; }
      }
    }
  }

  // ---- Main results ----

  /** The events of a parsed body with the payloads to print. */
  ghost predicate Parsed(events: seq<Event>, ps: seq<string>) {
    && Pieces(ps) && |events| == |ps|
    && forall i | 0 <= i < |ps| :: FromPiece(events[i], ps[i])
  }

  /** Only the last event can break: no other block ends with a blank line. */
  lemma {:induction false} OnlyLastBreaks(events: seq<Event>, ps: seq<string>, i: nat)
    requires Parsed(events, ps) && i < |events| - 1
    ensures !Breaks(events[i])
  {
    assert FromPiece(events[i], ps[i]);
    PrintedEnds(events[i], ps[i]);
    KeptIsKept(events[i].lines);
  }

  lemma {:induction false} PrintedPieces(events: seq<Event>, ps: seq<string>)
    requires Parsed(events, ps)
    ensures var out := PrintedAll(events);
            && (forall i | 0 <= i < |out| - 1 :: NoBlank(out[i]) && !EndsLine(out[i]))
            && (NoBlank(out[|out| - 1]) <==> !Breaks(events[|events| - 1]))
  {
    var out := PrintedAll(events);
    forall i | 0 <= i < |out| - 1 ensures NoBlank(out[i]) && !EndsLine(out[i]) {
      assert FromPiece(events[i], ps[i]);
      OnlyLastBreaks(events, ps, i);
      PrintedBlankIff(events[i], ps[i]);
      PrintedEnds(events[i], ps[i]);
    }
    PrintedBlankIff(events[|events| - 1], ps[|ps| - 1]);
  }

  lemma {:induction false} PrintedText(events: seq<Event>)
    ensures Print(events)[..|Print(events)| - 2] == JoinBlank(PrintedAll(events))
  {}

  /** Framing a printed stream gives back the same events in the same order, each with its lines
      other than data unchanged and its payload as printed. */
  lemma {:induction false} PrintThenFrame(events: seq<Event>, ps: seq<string>)
    requires Parsed(events, ps) && !Breaks(events[|events| - 1])
    ensures var again := Frame(Print(events));
            && |again| == |events|
            && forall i | 0 <= i < |events| ::
                 && Kept(again[i]) == Kept(events[i].lines)
                 && (events[i].payload.None? ==> again[i] == events[i].lines)
                 && (events[i].payload.Some? ==> Data(again[i]) == events[i].payload.value)
  {
    hide Kept, SplitLines, Breaks;
    var out := PrintedAll(events);
    PrintedPieces(events, ps);
    SplitOfJoinedPieces(out);
    PrintedText(events);
    forall i | 0 <= i < |events|
      ensures var lines := SplitLines(out[i]);
              && Kept(lines) == Kept(events[i].lines)
              && (events[i].payload.None? ==> lines == events[i].lines)
              && (events[i].payload.Some? ==> Data(lines) == events[i].payload.value)
    {
      assert FromPiece(events[i], ps[i]);
      SplitLinesAreLines(ps[i]);
      ReadBack(events[i]);
    }
  }

  /** When the last event breaks, the printed stream frames to one event more. */
  lemma {:induction false} BrokenPrintGainsEvent(events: seq<Event>, ps: seq<string>)
    requires Parsed(events, ps) && Breaks(events[|events| - 1])
    ensures |Frame(Print(events))| == |events| + 1
  {
    var out, last := PrintedAll(events), events[|events| - 1];
    var kept, line := Kept(last.lines), DataLine(last.payload.value);
    PrintedPieces(events, ps);
    BreakingPoint(last, ps[|ps| - 1]);
    var head := JoinLines(kept[..|kept| - 1]);
    JoinSplitsLast(out[..|out| - 1], head, line);
    assert out == out[..|out| - 1] + [Printed(last)];
    SplitOfJoinedPieces(out[..|out| - 1] + [head, line]);
    assert Print(events)[..|Print(events)| - 2] == JoinBlank(out);
  }

  lemma {:induction false} BreakingPoint(e: Event, piece: string)
    requires FromPiece(e, piece) && Breaks(e)
    ensures var kept, line := Kept(e.lines), DataLine(e.payload.value);
            var head := JoinLines(kept[..|kept| - 1]);
            && Printed(e) == head + "\n\n" + line
            && NoBlank(head) && !EndsLine(head) && NoBlank(line)
  {
    var kept, line := Kept(e.lines), DataLine(e.payload.value);
    var m := |kept| - 1;
    KeptOfBreaking(e, piece);
    JoinBlankThenLine(kept[..m], line);
    LineIsPiece(line);
    HeadIsPiece(kept[..m]);
  }

  lemma {:induction false} KeptOfBreaking(e: Event, piece: string)
    requires FromPiece(e, piece) && Breaks(e)
    ensures var kept := Kept(e.lines);
            var m := |kept| - 1;
            && AreLines(kept[..m]) && (forall i | 0 < i < m :: kept[..m][i] != "")
            && kept + [DataLine(e.payload.value)] == kept[..m] + ["", DataLine(e.payload.value)]
  {
    hide Kept, SplitLines, NoBlank, BlankInside, DataLines;
    SplitLinesAreLines(piece);
    JoinedHasBlankIff(e.lines);
    KeptIsKept(e.lines);
    KeptBlankInside(e.lines);
    LastIsBlank(Kept(e.lines), DataLine(e.payload.value));
  }

  lemma {:induction false} LastIsBlank(kept: seq<string>, line: string)
    requires |kept| >= 1 && kept[|kept| - 1] == ""
    ensures kept + [line] == kept[..|kept| - 1] + ["", line]
  {}

  lemma {:induction false} JoinBlankThenLine(ls: seq<string>, line: string)
    requires ls != []
    ensures JoinLines(ls + ["", line]) == JoinLines(ls) + "\n\n" + line
  {
    JoinLinesConcat(ls, ["", line]);
    JoinLinesConcat([""], [line]);
    assert [""] + [line] == ["", line];
    assert JoinLines([line]) == line;
  }

  lemma {:induction false} LineIsPiece(line: string)
    requires IsLine(line)
    ensures NoBlank(line)
  {
    JoinedHasBlankIff([line]);
  }

  lemma {:induction false} HeadIsPiece(ls: seq<string>)
    requires ls != [] && AreLines(ls) && forall i | 0 < i < |ls| :: ls[i] != ""
    ensures NoBlank(JoinLines(ls)) && !EndsLine(JoinLines(ls))
  {
    JoinedHasBlankIff(ls);
    JoinedEnds(ls);
  }

  lemma {:induction false} JoinLinesConcat(a: seq<string>, b: seq<string>)
    requires a != [] && b != []
    ensures JoinLines(a + b) == JoinLines(a) + "\n" + JoinLines(b)
  {
    assert (a + b)[1..] == a[1..] + b;
    if |a| == 1 {
      assert a[1..] + b == b;
    } else {
      JoinLinesConcat(a[1..], b);
    }
  }

  lemma {:induction false} JoinSplitsLast(init: seq<string>, head: string, line: string)
    ensures JoinBlank(init + [head + "\n\n" + line]) == JoinBlank(init + [head, line])
  {
    if init == [] {
      assert [head, line][1..] == [line];
      assert init + [head, line] == [head, line];
      assert JoinBlank([line]) == line && JoinBlank([head, line]) == head + "\n\n" + line;
      assert init + [head + "\n\n" + line] == [head + "\n\n" + line];
    } else {
      JoinSplitsLast(init[1..], head, line);
      assert (init + [head + "\n\n" + line])[1..] == init[1..] + [head + "\n\n" + line];
      assert (init + [head, line])[1..] == init[1..] + [head, line];
    }
  }
}
