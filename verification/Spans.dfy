/**
  scripts/retire-legacy-commands.py: finding the lines of a function, from its
  attributes and docs down to the closing brace in column zero, and deleting the
  lines of several functions at once.
 */
module Spans {
  import opened Sequences
  import opened PyText

  /** `^\s*(#\[|///|//!|//\s)` */
  predicate IsDoc(line: string) {
    var s := LStrip(line);
    StartsWith(s, "#[") || (StartsWith(s, "//") && |s| > 2 && (s[2] == '/' || s[2] == '!' || IsSpace(s[2])))
  }

  predicate IsClosing(line: string) {
    RStrip(line) == "}"
  }

  predicate IsWord(c: char) {
    IsLetter(c) || '0' <= c <= '9' || c == '_'
  }

  lemma WordIs(c: char)
    ensures IsWord(c) <==> IsIdent(c) && c != '-'
  {
  }

  /** The name is there, and no letter, digit or underscore goes on. */
  predicate StartsWithWord(s: string, name: string) {
    StartsWith(s, name) && (|s| > |name| ==> !IsWord(s[|name|]))
  }

  predicate AfterFn(s: string, name: string) {
    StartsWith(s, "fn ") && StartsWithWord(s[3..], name)
  }

  /** `^\s*pub (?:async )?fn NAME\b` */
  predicate Defines(line: string, name: string) {
    var s := LStrip(line);
    StartsWith(s, "pub ") && (AfterFn(s[4..], name) || (StartsWith(s[4..], "async ") && AfterFn(s[10..], name)))
  }

  lemma DefinitionIsCode(line: string, name: string)
    requires Defines(line, name)
    ensures !IsDoc(line) && !IsClosing(line) && !IsBlank(line)
  {
    var s := LStrip(line);
    assert s[..4][0] == 'p' && s[..2][0] == s[0];
    assert line[SpaceEnd(line, 0)] == 'p';
    if IsClosing(line) { ClosingIsAtColumnZero(line); }
  }

  lemma ClosingIsAtColumnZero(line: string)
    requires IsClosing(line)
    ensures line != "" && line[0] == '}' && SpaceEnd(line, 0) == 0 && LStrip(line) == line
  {
    assert line[..1] == "}";
    assert line[0] == line[..1][0];
  }

  lemma ClosingIsNoDoc(line: string)
    ensures IsClosing(line) || IsBlank(line) ==> !IsDoc(line)
    ensures IsClosing(line) ==> !IsBlank(line)
  {
    if IsClosing(line) {
      ClosingIsAtColumnZero(line);
    }
  }

  // ---------- spans ----------

  /** First and last line, both included. */
  datatype Span = Span(first: nat, last: nat)

  function CloseFrom(lines: seq<string>, i: nat): (k: nat)
    requires i <= |lines|
    ensures i <= k <= |lines| && (k < |lines| ==> IsClosing(lines[k])) && forall j :: i <= j < k ==> !IsClosing(lines[j])
    decreases |lines| - i
  {
    if i == |lines| || IsClosing(lines[i]) then i else CloseFrom(lines, i + 1)
  }

  /** The top of the run of docs that ends above line `i`. */
  function DocsFrom(lines: seq<string>, i: nat): (k: nat)
    requires i <= |lines|
    ensures k <= i && (k > 0 ==> !IsDoc(lines[k - 1])) && forall j :: k <= j < i ==> IsDoc(lines[j])
  {
    if i > 0 && IsDoc(lines[i - 1]) then DocsFrom(lines, i - 1) else i
  }

  function SpanAt(lines: seq<string>, sig: nat): Option<Span>
    requires sig < |lines|
  {
    var close := CloseFrom(lines, sig);
    if close == |lines| then None
    else Some(Span(DocsFrom(lines, sig), if close + 1 < |lines| && IsBlank(lines[close + 1]) then close + 1 else close))
  }

  method SpanOf(lines: seq<string>, sig: nat) returns (span: Option<Span>)
    requires sig < |lines|
    ensures span == SpanAt(lines, sig)
  {
    var end := sig;
    while end < |lines| && !IsClosing(lines[end])
      invariant sig <= end <= |lines| && forall j :: sig <= j < end ==> !IsClosing(lines[j])
    {
      end := end + 1;
    }
    ClosesFirst(lines, sig, end);
    if end >= |lines| {
      return None;
    }
    var start := DocsAbove(lines, sig);
    if end + 1 < |lines| && IsBlank(lines[end + 1]) {
      end := end + 1;
    }
    span := Some(Span(start, end));
  }

  lemma {:induction false} ClosesFirst(lines: seq<string>, i: nat, end: nat)
    requires i <= end <= |lines| && (end < |lines| ==> IsClosing(lines[end])) && forall j :: i <= j < end ==> !IsClosing(lines[j])
    ensures CloseFrom(lines, i) == end
  {
  }

  /** The loop that climbs over attributes and docs. */
  method DocsAbove(lines: seq<string>, sig: nat) returns (start: nat)
    requires sig < |lines|
    ensures start == DocsFrom(lines, sig)
  {
    start := sig;
    var k := sig - 1;
    while k >= 0 && IsDoc(lines[k])
      invariant -1 <= k == start - 1 && start <= sig && DocsFrom(lines, start) == DocsFrom(lines, sig)
    {
      start, k := k, k - 1;
    }
  }

  predicate Overlap(a: Span, b: Span) {
    a.first <= b.last && b.first <= a.last
  }

  predicate IsDefinition(line: string) {
    !IsDoc(line) && !IsClosing(line) && !IsBlank(line)
  }

  /** The spans of two functions of one file overlap exactly when both run to the same closing line. */
  lemma SpansCollideIff(lines: seq<string>, a: nat, b: nat)
    requires a < |lines| && b < |lines| && IsDefinition(lines[a]) && IsDefinition(lines[b])
    requires SpanAt(lines, a).Some? && SpanAt(lines, b).Some?
    ensures Overlap(SpanAt(lines, a).value, SpanAt(lines, b).value) <==> CloseFrom(lines, a) == CloseFrom(lines, b)
  {
    if a < b {
      LaterSpan(lines, a, b);
    } else if b < a {
      LaterSpan(lines, b, a);
    }
  }

  lemma LaterSpan(lines: seq<string>, a: nat, b: nat)
    requires a < b < |lines| && IsDefinition(lines[b]) && SpanAt(lines, a).Some? && SpanAt(lines, b).Some?
    ensures b <= CloseFrom(lines, a) ==> CloseFrom(lines, a) == CloseFrom(lines, b)
    ensures CloseFrom(lines, a) < b ==> SpanAt(lines, a).value.last < SpanAt(lines, b).value.first
  {
    var close, top := CloseFrom(lines, a), DocsFrom(lines, b);
    if close < b {
      ClosingIsNoDoc(lines[close]);
      assert top > close;
      if close + 1 < |lines| && IsBlank(lines[close + 1]) {
        ClosingIsNoDoc(lines[close + 1]);
        assert top > close + 1;
      }
    }
  }

  // ---------- deletion ----------

  predicate Inside(span: Span, i: nat) {
    span.first <= i <= span.last
  }

  predicate Covered(spans: seq<Span>, i: nat) {
    exists n :: 0 <= n < |spans| && Inside(spans[n], i)
  }

  /** The lines that are kept, in order. */
  function Kept(lines: seq<string>, keep: seq<bool>): seq<string>
    requires |keep| == |lines|
  {
    if lines == [] then []
    else
      Kept(lines[..|lines| - 1], keep[..|lines| - 1]) + if keep[|lines| - 1] then [lines[|lines| - 1]] else []
  }

  function KeepMask(n: nat, spans: seq<Span>): (keep: seq<bool>)
    ensures |keep| == n
  {
    seq(n, i requires 0 <= i < n => !Covered(spans, i))
  }

  /** The file without the lines of the spans. */
  function AfterDeletion(lines: seq<string>, spans: seq<Span>): seq<string> {
    Kept(lines, KeepMask(|lines|, spans))
  }

  ghost predicate Disjoint(spans: seq<Span>) {
    forall m, n :: 0 <= m < n < |spans| ==> !Overlap(spans[m], spans[n])
  }

  ghost predicate Within(spans: seq<Span>, n: nat) {
    forall m :: 0 <= m < |spans| ==> spans[m].first <= spans[m].last < n
  }

  method AnyOverlap(spans: seq<Span>) returns (found: bool)
    ensures found <==> !Disjoint(spans)
  {
    for m := 0 to |spans|
      invariant forall i, j :: 0 <= i < m && i < j < |spans| ==> !Overlap(spans[i], spans[j])
    {
      for n := m + 1 to |spans|
        invariant forall j :: m < j < n ==> !Overlap(spans[m], spans[j])
      {
        if Overlap(spans[m], spans[n]) {
          return true;
        }
      }
    }
    found := false;
  }

  method Delete(lines: seq<string>, spans: seq<Span>) returns (out: seq<string>)
    requires Within(spans, |lines|)
    ensures out == AfterDeletion(lines, spans)
  {
    var keep := new bool[|lines|](_ => true);
    for n := 0 to |spans|
      invariant forall i :: 0 <= i < |lines| ==> (keep[i] <==> !Covered(spans[..n], i))
    {
      ClearSpan(keep, spans, n);
    }
    assert spans[..|spans|] == spans;
    assert keep[..] == KeepMask(|lines|, spans);
    out := [];
    for i := 0 to |lines|
      invariant out == Kept(lines[..i], keep[..i])
    {
      assert lines[..i + 1][..i] == lines[..i] && keep[..i + 1][..i] == keep[..i];
      if keep[i] {
        out := out + [lines[i]];
      }
    }
    assert lines[..|lines|] == lines && keep[..|lines|] == keep[..];
  }

  method ClearSpan(keep: array<bool>, spans: seq<Span>, n: nat)
    requires n < |spans| && Within(spans, keep.Length)
    requires forall i :: 0 <= i < keep.Length ==> (keep[i] <==> !Covered(spans[..n], i))
    modifies keep
    ensures forall i :: 0 <= i < keep.Length ==> (keep[i] <==> !Covered(spans[..n + 1], i))
  {
    var span := spans[n];
    assert span.first <= span.last < keep.Length;
    for i := span.first to span.last + 1
      invariant forall k :: 0 <= k < keep.Length ==> keep[k] == (old(keep[k]) && !(span.first <= k < i))
    {
      keep[i] := false;
    }
    forall i | 0 <= i < keep.Length
      ensures keep[i] <==> !Covered(spans[..n + 1], i)
    {
      CoveredBySnoc(spans[..n], span, i);
    }
    assert spans[..n + 1] == spans[..n] + [span];
  }

  lemma CoveredBySnoc(spans: seq<Span>, span: Span, i: nat)
    ensures Covered(spans + [span], i) <==> Covered(spans, i) || Inside(span, i)
  {
    var all := spans + [span];
    if Covered(spans, i) {
      var n :| 0 <= n < |spans| && Inside(spans[n], i);
      assert Inside(all[n], i);
    }
    if Inside(span, i) {
      assert Inside(all[|spans|], i);
    }
    if Covered(all, i) && !Inside(span, i) {
      var n :| 0 <= n < |all| && Inside(all[n], i);
      assert Inside(spans[n], i);
    }
  }

  function Lengths(spans: seq<Span>): int {
    if spans == [] then 0
    else Lengths(spans[..|spans| - 1]) + spans[|spans| - 1].last + 1 - spans[|spans| - 1].first
  }

  function Count(keep: seq<bool>): nat {
    if keep == [] then 0 else Count(keep[..|keep| - 1]) + if keep[|keep| - 1] then 1 else 0
  }

  lemma {:induction false} KeptCount(lines: seq<string>, keep: seq<bool>)
    requires |keep| == |lines|
    ensures |Kept(lines, keep)| == Count(keep)
  {
    if lines != [] {
      KeptCount(lines[..|lines| - 1], keep[..|lines| - 1]);
    }
  }

  /** Clearing a stretch that was kept lowers the count by its length. */
  lemma {:induction false} CountDrops(before: seq<bool>, after: seq<bool>, span: Span)
    requires |before| == |after| && span.first <= span.last
    requires forall i :: 0 <= i < |before| ==> after[i] == (before[i] && !Inside(span, i)) && (Inside(span, i) ==> before[i])
    ensures var top := if span.last < |before| then span.last + 1 else |before|;
            Count(before) - Count(after) == if span.first < top then top - span.first else 0
  {
    if before != [] {
      var n := |before| - 1;
      CountDrops(before[..n], after[..n], span);
    }
  }

  lemma {:induction false} AllKept(n: nat)
    ensures Count(KeepMask(n, [])) == n
  {
    if n > 0 {
      AllKept(n - 1);
      assert KeepMask(n, [])[..n - 1] == KeepMask(n - 1, []);
      assert !Covered([], n - 1);
    }
  }

  lemma LastMask(spans: seq<Span>, i: nat)
    requires spans != [] && Disjoint(spans)
    ensures var front, span := spans[..|spans| - 1], spans[|spans| - 1];
            && (Covered(spans, i) <==> Covered(front, i) || Inside(span, i))
            && (Inside(span, i) ==> !Covered(front, i))
  {
    var m := |spans| - 1;
    var front, span := spans[..m], spans[m];
    assert spans == front + [span];
    CoveredBySnoc(front, span, i);
    if Inside(span, i) {
      forall k | 0 <= k < m
        ensures !Inside(front[k], i)
      {
        assert !Overlap(spans[k], spans[m]);
      }
    }
  }

  lemma {:induction false} MaskCount(n: nat, spans: seq<Span>)
    requires Disjoint(spans) && Within(spans, n)
    ensures Count(KeepMask(n, spans)) + Lengths(spans) == n
    decreases |spans|
  {
    if spans == [] {
      AllKept(n);
    } else {
      var m := |spans| - 1;
      var front, span := spans[..m], spans[m];
      MaskCount(n, front);
      forall i | 0 <= i < n
        ensures KeepMask(n, spans)[i] == (KeepMask(n, front)[i] && !Inside(span, i))
        ensures Inside(span, i) ==> KeepMask(n, front)[i]
      {
        LastMask(spans, i);
      }
      CountDrops(KeepMask(n, front), KeepMask(n, spans), span);
    }
  }

  /** Deleting spans that do not overlap removes exactly as many lines as they have together. */
  lemma DeletionRemovesTheirLengths(lines: seq<string>, spans: seq<Span>)
    requires Disjoint(spans) && Within(spans, |lines|)
    ensures |AfterDeletion(lines, spans)| + Lengths(spans) == |lines|
  {
    KeptCount(lines, KeepMask(|lines|, spans));
    MaskCount(|lines|, spans);
  }

  // ---------- the same, by parts and places ----------

  ghost predicate DocBy(line: string, indent: string, rest: string) {
    && AllSpace(indent)
    && (line == indent + "#[" + rest || line == indent + "///" + rest || line == indent + "//!" + rest
        || (rest != "" && IsSpace(rest[0]) && line == indent + "//" + rest))
  }

  lemma DocHasParts(line: string) returns (indent: string, rest: string)
    requires IsDoc(line)
    ensures DocBy(line, indent, rest)
  {
    var k := SpaceEnd(line, 0);
    var s := line[k..];
    indent := line[..k];
    assert line == indent + s;
    rest := if StartsWith(s, "#[") || IsSpace(s[2]) then s[2..] else s[3..];
    DocMark(s);
    if StartsWith(s, "#[") {
      Indented(line, indent, "#[", rest);
    } else if IsSpace(s[2]) {
      Indented(line, indent, "//", rest);
    } else if s[2] == '/' {
      Indented(line, indent, "///", rest);
    } else {
      Indented(line, indent, "//!", rest);
    }
  }

  lemma Indented(line: string, indent: string, mark: string, rest: string)
    requires line == indent + (mark + rest)
    ensures line == indent + mark + rest
  {
  }

  lemma DocMark(s: string)
    ensures StartsWith(s, "#[") ==> s == "#[" + s[2..]
    ensures StartsWith(s, "//") ==> s == "//" + s[2..]
    ensures StartsWith(s, "//") && |s| > 2 && s[2] == '/' ==> s == "///" + s[3..]
    ensures StartsWith(s, "//") && |s| > 2 && s[2] == '!' ==> s == "//!" + s[3..]
  {
    if |s| > 2 { assert s == s[..2] + [s[2]] + s[3..]; }
  }

  lemma PartsAreDoc(line: string, indent: string, rest: string)
    requires DocBy(line, indent, rest)
    ensures IsDoc(line)
  {
    var tail := line[|indent|..];
    assert line == indent + tail;
    assert tail[0] == '#' || tail[0] == '/';
    IndentIs(line, indent, tail);
  }

  lemma DocIff(line: string)
    ensures IsDoc(line) <==> exists indent, rest :: DocBy(line, indent, rest)
  {
    if IsDoc(line) {
      var indent, rest := DocHasParts(line);
    }
    if indent, rest :| DocBy(line, indent, rest) {
      PartsAreDoc(line, indent, rest);
    }
  }

  /** What follows the blanks at the start of a line. */
  lemma IndentIs(line: string, indent: string, tail: string)
    requires line == indent + tail && AllSpace(indent) && (tail != "" ==> !IsSpace(tail[0]))
    ensures LStrip(line) == tail
  {
    assert forall j :: 0 <= j < |indent| ==> line[j] == indent[j];
    SpaceEndIs(line, 0, |indent|);
  }

  lemma ClosingIff(line: string)
    ensures IsClosing(line) <==> exists blanks :: AllSpace(blanks) && line == "}" + blanks
  {
    if IsClosing(line) {
      assert line == "}" + line[1..];
      assert AllSpace(line[1..]);
    }
    if blanks :| AllSpace(blanks) && line == "}" + blanks {
      var r := RStrip(line);
      assert line[0] == '}' && forall i :: 1 <= i < |line| ==> line[i] == blanks[i - 1];
      assert r != "" ==> r[|r| - 1] == line[|r| - 1];
      assert !IsSpace(line[0]);
      assert |r| == 1 && r == line[..1];
    }
  }

  ghost predicate DefinesBy(line: string, name: string, indent: string, rest: string) {
    && AllSpace(indent) && (rest != "" ==> !IsWord(rest[0]))
    && (line == indent + "pub fn " + name + rest || line == indent + "pub async fn " + name + rest)
  }

  lemma DefinesIff(line: string, name: string)
    ensures Defines(line, name) <==> exists indent, rest :: DefinesBy(line, name, indent, rest)
  {
    if Defines(line, name) {
      var k := SpaceEnd(line, 0);
      var s := line[k..];
      var n := if AfterFn(s[4..], name) then 7 else 13;
      DefinitionParts(s, name, n);
      IndentedDefinition(line, line[..k], s[..n], name, s[n + |name|..]);
    }
    if indent, rest :| DefinesBy(line, name, indent, rest) {
      PartsDefine(line, name, indent, rest);
    }
  }

  lemma IndentedDefinition(line: string, indent: string, mark: string, name: string, rest: string)
    requires AllSpace(indent) && line == indent + (mark + name + rest) && mark in {"pub fn ", "pub async fn "}
    requires rest != "" ==> !IsWord(rest[0])
    ensures DefinesBy(line, name, indent, rest)
  {
    assert line == indent + mark + name + rest;
  }

  lemma DefinitionParts(s: string, name: string, n: nat)
    requires StartsWith(s, "pub ")
    requires if n == 7 then AfterFn(s[4..], name) else n == 13 && StartsWith(s[4..], "async ") && AfterFn(s[10..], name)
    ensures n + |name| <= |s| && s == s[..n] + name + s[n + |name|..]
    ensures s[..n] == if n == 7 then "pub fn " else "pub async fn "
    ensures n + |name| < |s| ==> !IsWord(s[n + |name|])
  {
    if n == 7 {
      assert s[..7] == s[..4] + s[4..][..3] && s[7..] == s[4..][3..];
      assert "pub " + "fn " == "pub fn ";
    } else {
      assert s[..13] == s[..4] + s[4..][..6] + s[10..][..3] && s[13..] == s[10..][3..];
      assert "pub " + "async " + "fn " == "pub async fn ";
    }
    assert s[n..][..|name|] == name && s[n..][|name|..] == s[n + |name|..];
    assert s == s[..n] + s[n..] && s[n..] == name + s[n + |name|..];
  }

  lemma PartsDefine(line: string, name: string, indent: string, rest: string)
    requires DefinesBy(line, name, indent, rest)
    ensures Defines(line, name)
  {
    if line == indent + "pub fn " + name + rest {
      PlainDefines(line, name, indent, rest);
    } else {
      AsyncDefines(line, name, indent, rest);
    }
  }

  lemma AfterFnBy(s: string, name: string, rest: string)
    requires s == "fn " + (name + rest) && (rest != "" ==> !IsWord(rest[0]))
    ensures AfterFn(s, name)
  {
    assert s[..3] == "fn " && s[3..] == name + rest && (name + rest)[..|name|] == name;
  }

  lemma PlainDefines(line: string, name: string, indent: string, rest: string)
    requires AllSpace(indent) && (rest != "" ==> !IsWord(rest[0])) && line == indent + "pub fn " + name + rest
    ensures Defines(line, name)
  {
    var after := "fn " + (name + rest);
    var tail := "pub " + after;
    assert "pub fn " == "pub " + "fn ";
    assert line == indent + tail;
    IndentIs(line, indent, tail);
    assert tail[..4] == "pub " && tail[4..] == after;
    AfterFnBy(after, name, rest);
  }

  lemma AsyncDefines(line: string, name: string, indent: string, rest: string)
    requires AllSpace(indent) && (rest != "" ==> !IsWord(rest[0])) && line == indent + "pub async fn " + name + rest
    ensures Defines(line, name)
  {
    var after := "fn " + (name + rest);
    var tail := "pub " + ("async " + after);
    assert "pub async fn " == "pub " + "async " + "fn ";
    assert line == indent + tail;
    IndentIs(line, indent, tail);
    assert tail[..4] == "pub " && tail[4..] == "async " + after && tail[4..][..6] == "async " && tail[10..] == after;
    AfterFnBy(after, name, rest);
  }

  /** The span runs from the topmost of the docs above the signature to the first closing line below it, and one blank
      line more. */
  lemma SpanIff(lines: seq<string>, sig: nat, first: nat, last: nat)
    requires sig < |lines|
    ensures SpanAt(lines, sig) == Some(Span(first, last)) <==>
            exists close :: SpanRuns(lines, sig, first, close, last)
  {
    if SpanAt(lines, sig) == Some(Span(first, last)) {
      assert SpanRuns(lines, sig, first, CloseFrom(lines, sig), last);
    }
    if close :| SpanRuns(lines, sig, first, close, last) {
      ClosesFirst(lines, sig, close);
      DocsStop(lines, sig, first);
    }
  }

  ghost predicate SpanRuns(lines: seq<string>, sig: nat, first: nat, close: nat, last: nat) {
    && first <= sig <= close < |lines|
    && (forall j :: first <= j < sig ==> IsDoc(lines[j])) && (first > 0 ==> !IsDoc(lines[first - 1]))
    && (forall j :: sig <= j < close ==> !IsClosing(lines[j])) && IsClosing(lines[close])
    && last == if close + 1 < |lines| && AllSpace(lines[close + 1]) then close + 1 else close
  }

  lemma {:induction false} DocsStop(lines: seq<string>, i: nat, first: nat)
    requires first <= i <= |lines| && (forall j :: first <= j < i ==> IsDoc(lines[j])) && (first > 0 ==> !IsDoc(lines[first - 1]))
    ensures DocsFrom(lines, i) == first
  {
    if first < i {
      DocsStop(lines, i - 1, first);
    }
  }

  /** The places of the lines that are left, in order. */
  ghost predicate Places(lines: seq<string>, keep: seq<bool>, out: seq<string>, places: seq<nat>)
    requires |keep| == |lines|
  {
    && |places| == |out| && Increasing(places)
    && (forall i :: 0 <= i < |places| ==> places[i] < |lines| && keep[places[i]] && out[i] == lines[places[i]])
    && (forall k :: 0 <= k < |lines| && keep[k] ==> k in places)
  }

  lemma {:induction false} KeptPlaces(lines: seq<string>, keep: seq<bool>) returns (places: seq<nat>)
    requires |keep| == |lines|
    ensures Places(lines, keep, Kept(lines, keep), places)
  {
    if lines == [] {
      places := [];
    } else {
      var n := |lines| - 1;
      var front := KeptPlaces(lines[..n], keep[..n]);
      places := LastPlace(lines, keep, Kept(lines[..n], keep[..n]), front);
    }
  }

  lemma LastPlace(lines: seq<string>, keep: seq<bool>, out: seq<string>, front: seq<nat>) returns (places: seq<nat>)
    requires |keep| == |lines| > 0 && Places(lines[..|lines| - 1], keep[..|lines| - 1], out, front)
    ensures Places(lines, keep, out + if keep[|lines| - 1] then [lines[|lines| - 1]] else [], places)
  {
    var n := |lines| - 1;
    EarlierPlaces(lines, keep, out, front);
    if keep[n] {
      places := front + [n];
      assert places[|front|] == n;
      assert forall k :: k in front ==> k in places;
    } else {
      places := front;
    }
  }

  lemma EarlierPlaces(lines: seq<string>, keep: seq<bool>, out: seq<string>, front: seq<nat>)
    requires |keep| == |lines| > 0 && Places(lines[..|lines| - 1], keep[..|lines| - 1], out, front)
    ensures forall i :: 0 <= i < |front| ==> front[i] < |lines| - 1 && keep[front[i]] && out[i] == lines[front[i]]
    ensures forall k :: 0 <= k < |lines| - 1 && keep[k] ==> k in front
  {
    forall k | 0 <= k < |lines| - 1 && keep[k]
      ensures k in front
    {
      assert keep[..|lines| - 1][k];
    }
  }

  /** What is left of a file are its lines outside every span, in order. */
  lemma LeftOver(lines: seq<string>, spans: seq<Span>) returns (places: seq<nat>)
    ensures var out := AfterDeletion(lines, spans);
            && |places| == |out| && Increasing(places)
            && (forall i :: 0 <= i < |places| ==> places[i] < |lines| && out[i] == lines[places[i]])
            && forall k :: 0 <= k < |lines| ==> (k in places <==> forall m :: 0 <= m < |spans| ==> !(spans[m].first <= k <= spans[m].last))
  {
    var keep := KeepMask(|lines|, spans);
    places := KeptPlaces(lines, keep);
    forall k | 0 <= k < |lines|
      ensures k in places <==> forall m :: 0 <= m < |spans| ==> !(spans[m].first <= k <= spans[m].last)
    {
      assert Covered(spans, k) <==> exists m :: 0 <= m < |spans| && Inside(spans[m], k);
      if k in places {
        var i :| 0 <= i < |places| && places[i] == k;
      }
    }
  }

  // ---------- retiring functions ----------

  function Hits(lines: seq<string>, name: string): seq<nat> {
    if lines == [] then []
    else
      var n := |lines| - 1;
      Hits(lines[..n], name) + if Defines(lines[n], name) then [n] else []
  }

  lemma {:induction false} HitsAre(lines: seq<string>, name: string)
    ensures forall i :: 0 <= i < |Hits(lines, name)| ==>
              Hits(lines, name)[i] < |lines| && Defines(lines[Hits(lines, name)[i]], name)
    ensures forall k: nat :: k < |lines| && Defines(lines[k], name) ==> k in Hits(lines, name)
  {
    if lines != [] {
      HitsAre(lines[..|lines| - 1], name);
    }
  }

  /** `signature_index` */
  function SignatureIndex(lines: seq<string>, name: string): (sig: Option<nat>)
    ensures sig.Some? ==>
              && sig.value < |lines| && Defines(lines[sig.value], name)
              && forall k: nat :: k < |lines| && Defines(lines[k], name) ==> k == sig.value
  {
    HitsAre(lines, name);
    if |Hits(lines, name)| == 1 then Some(Hits(lines, name)[0]) else None
  }

  /** The function is defined by one line and has a closing line. */
  ghost predicate Retirable(lines: seq<string>, name: string) {
    SignatureIndex(lines, name).Some? && CloseFrom(lines, SignatureIndex(lines, name).value) < |lines|
  }

  function SpanOfName(lines: seq<string>, name: string): Span
    requires Retirable(lines, name)
  {
    SpanAt(lines, SignatureIndex(lines, name).value).value
  }

  function CloseOf(lines: seq<string>, name: string): nat
    requires Retirable(lines, name)
  {
    CloseFrom(lines, SignatureIndex(lines, name).value)
  }

  ghost predicate AllRetirable(lines: seq<string>, names: seq<string>) {
    forall i :: 0 <= i < |names| ==> Retirable(lines, names[i])
  }

  ghost predicate OwnClosings(lines: seq<string>, names: seq<string>)
    requires AllRetirable(lines, names)
  {
    forall i, j :: 0 <= i < j < |names| ==> CloseOf(lines, names[i]) != CloseOf(lines, names[j])
  }

  function SpansOf(lines: seq<string>, names: seq<string>): (spans: seq<Span>)
    requires AllRetirable(lines, names)
    ensures |spans| == |names|
  {
    seq(|names|, i requires 0 <= i < |names| => SpanOfName(lines, names[i]))
  }

  lemma DisjointIffOwnClosings(lines: seq<string>, names: seq<string>)
    requires AllRetirable(lines, names)
    ensures Disjoint(SpansOf(lines, names)) <==> OwnClosings(lines, names)
    ensures Within(SpansOf(lines, names), |lines|)
  {
    var spans := SpansOf(lines, names);
    if OwnClosings(lines, names) {
      forall i, j | 0 <= i < j < |names|
        ensures !Overlap(spans[i], spans[j])
      {
        NamesCollideIff(lines, names[i], names[j]);
      }
    }
    if Disjoint(spans) {
      forall i, j | 0 <= i < j < |names|
        ensures CloseOf(lines, names[i]) != CloseOf(lines, names[j])
      {
        assert !Overlap(spans[i], spans[j]);
        NamesCollideIff(lines, names[i], names[j]);
      }
    }
    forall i | 0 <= i < |names|
      ensures spans[i].first <= spans[i].last < |lines|
    {
      NamesCollideIff(lines, names[i], names[i]);
    }
  }

  lemma NamesCollideIff(lines: seq<string>, a: string, b: string)
    requires Retirable(lines, a) && Retirable(lines, b)
    ensures Overlap(SpanOfName(lines, a), SpanOfName(lines, b)) <==> CloseOf(lines, a) == CloseOf(lines, b)
    ensures SpanOfName(lines, a).first <= SpanOfName(lines, a).last < |lines|
  {
    var i, j := SignatureIndex(lines, a).value, SignatureIndex(lines, b).value;
    DefinitionIsCode(lines[i], a);
    DefinitionIsCode(lines[j], b);
    SpansCollideIff(lines, i, j);
  }

  /** The deletion part of `main`: nothing is written unless every function has lines of its own. */
  method Retire(lines: seq<string>, names: seq<string>) returns (out: Option<seq<string>>)
    ensures out.Some? <==> AllRetirable(lines, names) && OwnClosings(lines, names)
    ensures out.Some? ==>
              && out.value == AfterDeletion(lines, SpansOf(lines, names))
              && |out.value| + Lengths(SpansOf(lines, names)) == |lines|
  {
    var spans := FindSpans(lines, names);
    if spans.None? {
      return None;
    }
    DisjointIffOwnClosings(lines, names);
    var collide := AnyOverlap(spans.value);
    if collide {
      return None;
    }
    DeletionRemovesTheirLengths(lines, spans.value);
    var kept := Delete(lines, spans.value);
    out := Some(kept);
  }

  /** The loop over the candidates, which gives up at the first that has no lines of its own. */
  method FindSpans(lines: seq<string>, names: seq<string>) returns (found: Option<seq<Span>>)
    ensures found.Some? <==> AllRetirable(lines, names)
    ensures found.Some? ==> found.value == SpansOf(lines, names)
  {
    var spans: seq<Span> := [];
    for n := 0 to |names|
      invariant |spans| == n
      invariant forall i :: 0 <= i < n ==> Retirable(lines, names[i]) && spans[i] == SpanOfName(lines, names[i])
    {
      var span := FindSpan(lines, names[n]);
      if span.None? {
        return None;
      }
      spans := spans + [span.value];
    }
    found := Some(spans);
  }

  method FindSpan(lines: seq<string>, name: string) returns (span: Option<Span>)
    ensures span.Some? <==> Retirable(lines, name)
    ensures span.Some? ==> span.value == SpanOfName(lines, name)
  {
    var sig := SignatureIndex(lines, name);
    if sig.None? {
      return None;
    }
    span := SpanOf(lines, sig.value);
  }

  // ---------- what is lost and what stays ----------

  /** Docs above and a blank line below hold no definition. */
  lemma InsideIff(lines: seq<string>, name: string, t: nat)
    requires Retirable(lines, name) && t < |lines| && IsDefinition(lines[t])
    ensures Inside(SpanOfName(lines, name), t) <==> SignatureIndex(lines, name).value <= t < CloseOf(lines, name)
  {
    ClosingIsNoDoc(lines[t]);
  }

  /** A definition is deleted exactly when some retired function begins at or above it and closes at or below it. */
  lemma LostIff(lines: seq<string>, names: seq<string>, t: nat)
    requires AllRetirable(lines, names) && t < |lines| && IsDefinition(lines[t])
    ensures Covered(SpansOf(lines, names), t) <==>
            exists i :: 0 <= i < |names| && SignatureIndex(lines, names[i]).value <= t < CloseOf(lines, names[i])
  {
    var spans := SpansOf(lines, names);
    forall i | 0 <= i < |names|
      ensures Inside(spans[i], t) <==> SignatureIndex(lines, names[i]).value <= t < CloseOf(lines, names[i])
    {
      InsideIff(lines, names[i], t);
    }
    if Covered(spans, t) {
      var i :| 0 <= i < |spans| && Inside(spans[i], t);
      assert SignatureIndex(lines, names[i]).value <= t < CloseOf(lines, names[i]);
    }
    if i :| 0 <= i < |names| && SignatureIndex(lines, names[i]).value <= t < CloseOf(lines, names[i]) {
      assert Inside(spans[i], t);
    }
  }

  lemma {:induction false} KeptHolds(lines: seq<string>, keep: seq<bool>, line: string)
    requires |keep| == |lines|
    ensures line in Kept(lines, keep) <==> exists i :: 0 <= i < |lines| && keep[i] && lines[i] == line
  {
    if lines != [] {
      var n := |lines| - 1;
      KeptHolds(lines[..n], keep[..n], line);
      if i :| 0 <= i < |lines| && keep[i] && lines[i] == line {
        assert i < n ==> keep[..n][i] && lines[..n][i] == line;
      }
      if i :| 0 <= i < n && keep[..n][i] && lines[..n][i] == line {
        assert keep[i] && lines[i] == line;
      }
    }
  }

  /** No retired function is still defined in what is written. */
  lemma RetiredIsGone(lines: seq<string>, names: seq<string>, n: nat, line: string)
    requires AllRetirable(lines, names) && n < |names| && line in AfterDeletion(lines, SpansOf(lines, names))
    ensures !Defines(line, names[n])
  {
    var spans := SpansOf(lines, names);
    KeptHolds(lines, KeepMask(|lines|, spans), line);
    var i :| 0 <= i < |lines| && KeepMask(|lines|, spans)[i] && lines[i] == line;
    assert Retirable(lines, names[n]);
    assert Inside(spans[n], SignatureIndex(lines, names[n]).value);
  }
}
