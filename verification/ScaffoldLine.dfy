/**
  `scaffold_value_line` of scripts/translate-stub.py, and why the line it makes
  is taken by the same branch of the parser and holds the same placeholders,
  selects and attributes as the line it came from.
 */
module ScaffoldLine {
  import opened PyText
  import opened FtlPatterns
  import opened FtlBlocks

  function ScaffoldValueLine(line: string, sentinel: string): string {
    var eq := Find(line, '=', 0);
    if eq == |line| then RStrip(line) + " " + sentinel
    else
      var prefix, rest := RStrip(line[..eq + 1]), LStrip(line[eq + 1..]);
      if StartsWith(rest, RStrip(sentinel)) then line else prefix + " " + sentinel + rest
  }

  /** What the sentinel must not contain: braces, an arrow head, an equals sign, a line break. */
  predicate GoodSentinel(s: string) {
    Quiet(s) && Lacks(s, '=') && NoBreak(s)
  }

  // ---------- recognition looks no further than the first equals sign ----------

  lemma {:induction false} FindIs(s: string, c: char, i: nat, k: nat)
    requires i <= k <= |s| && (k < |s| ==> s[k] == c) && forall j :: i <= j < k ==> s[j] != c
    ensures Find(s, c, i) == k
    decreases k - i
  {
    if i < k { FindIs(s, c, i + 1, k); }
  }

  /** The first `n` characters hold the first visible one, and the first equals sign unless there is
      none at all. */
  predicate Decisive(s: string, t: string, n: nat) {
    && Agree(s, t, n) && SpaceEnd(s, 0) < n
    && (Find(s, '=', 0) < n || (Find(s, '=', 0) == |s| && Find(t, '=', 0) == |t|))
  }

  lemma NameDecided(s: string, t: string, n: nat, i: nat)
    requires Agree(s, t, n) && i <= n && i <= Find(s, '=', 0)
    requires Find(s, '=', 0) < n || Find(s, '=', 0) == |s|
    ensures NameBeforeEquals(s, i, IdentStart).Some? ==>
              NameBeforeEquals(t, i, IdentStart) == NameBeforeEquals(s, i, IdentStart)
  {
    if NameBeforeEquals(s, i, IdentStart).Some? {
      NameEndsAtFirstEquals(s, i);
      NameAgrees(s, t, n, i);
    }
  }

  lemma DecisiveIsSymmetric(s: string, t: string, n: nat)
    requires Decisive(s, t, n)
    ensures Decisive(t, s, n) && SpaceEnd(t, 0) == SpaceEnd(s, 0)
    ensures Find(s, '=', 0) < n ==> Find(t, '=', 0) == Find(s, '=', 0)
  {
    RunsAgree(s, t, n, 0);
    if Find(s, '=', 0) < n { FindIs(t, '=', 0, Find(s, '=', 0)); }
  }

  lemma KindDecided(s: string, t: string, n: nat)
    requires Decisive(s, t, n)
    ensures KindOf(s) == KindOf(t)
  {
    DecisiveIsSymmetric(s, t, n);
    var i := SpaceEnd(s, 0);
    NameDecided(s, t, n, 0);
    NameDecided(t, s, n, 0);
    if s[i] == '.' {
      DotBeforeEquals(s, i);
      DotBeforeEquals(t, i);
      NameDecided(s, t, n, i + 1);
      NameDecided(t, s, n, i + 1);
    }
  }

  lemma DotBeforeEquals(s: string, i: nat)
    requires i == SpaceEnd(s, 0) && i < |s| && s[i] == '.'
    ensures i + 1 <= Find(s, '=', 0)
  {
    var e := Find(s, '=', 0);
    assert e < |s| ==> !IsSpace(s[e]);
  }

  // ---------- the scaffolded line ----------

  predicate Visible(line: string) {
    !IsBlank(line)
  }

  lemma {:induction false} FirstVisible(s: string)
    requires Visible(s)
    ensures SpaceEnd(s, 0) < |RStrip(s)|
  {
    var i := SpaceEnd(s, 0);
    assert !IsSpace(s[i]);
  }

  lemma StrippedHasNoEquals(line: string, tail: string)
    requires Find(line, '=', 0) == |line| && Lacks(tail, '=')
    ensures Find(RStrip(line) + tail, '=', 0) == |RStrip(line) + tail|
  {
    var r := RStrip(line);
    assert forall i :: 0 <= i < |r| ==> r[i] == line[i];
    FindIs(r + tail, '=', 0, |r + tail|);
  }

  lemma NothingToStrip(s: string)
    requires s != "" && !IsSpace(s[|s| - 1])
    ensures RStrip(s) == s
  {
  }

  lemma PrefixEndsInEquals(line: string)
    requires Find(line, '=', 0) < |line|
    ensures RStrip(line[..Find(line, '=', 0) + 1]) == line[..Find(line, '=', 0) + 1]
  {
    NothingToStrip(line[..Find(line, '=', 0) + 1]);
  }

  /** The parts of a line with an equals sign: up to it, the blanks after it, and the value. */
  lemma Parts(line: string, sentinel: string) returns (head: string, blanks: string, value: string)
    requires Find(line, '=', 0) < |line|
    ensures head != "" && head[|head| - 1] == '=' && |head| == Find(line, '=', 0) + 1
    ensures line == head + (blanks + value) && forall i :: 0 <= i < |blanks| ==> IsSpace(blanks[i])
    ensures ScaffoldValueLine(line, sentinel) == line || ScaffoldValueLine(line, sentinel) == head + ((" " + sentinel) + value)
  {
    var eq := Find(line, '=', 0);
    PrefixEndsInEquals(line);
    var tail := line[eq + 1..];
    head, blanks, value := line[..eq + 1], tail[..SpaceEnd(tail, 0)], LStrip(tail);
    assert blanks + value == tail;
    assert head + tail == line;
    ValueLineIs(line, sentinel, head, value);
  }

  lemma ValueLineIs(line: string, sentinel: string, head: string, value: string)
    requires var eq := Find(line, '=', 0);
             eq < |line| && head == RStrip(line[..eq + 1]) && value == LStrip(line[eq + 1..])
    ensures ScaffoldValueLine(line, sentinel) == line || ScaffoldValueLine(line, sentinel) == head + ((" " + sentinel) + value)
  {
    Grouped(head, " ", sentinel, value);
  }

  lemma Grouped(a: string, b: string, c: string, d: string)
    ensures a + b + c + d == a + ((b + c) + d)
  {
  }

  lemma SameKind(line: string, sentinel: string)
    requires GoodSentinel(sentinel) && Visible(line)
    ensures KindOf(ScaffoldValueLine(line, sentinel)) == KindOf(line)
  {
    FirstVisible(line);
    if Find(line, '=', 0) == |line| {
      SameKindWithoutValue(line, sentinel);
    } else {
      SameKindWithValue(line, sentinel);
    }
  }

  lemma SameKindWithoutValue(line: string, sentinel: string)
    requires GoodSentinel(sentinel) && Visible(line) && Find(line, '=', 0) == |line| && SpaceEnd(line, 0) < |RStrip(line)|
    ensures KindOf(ScaffoldValueLine(line, sentinel)) == KindOf(line)
  {
    var r, tail := RStrip(line), " " + sentinel;
    NoValueLine(line, sentinel);
    StrippedHasNoEquals(line, tail);
    PrefixChars(line, |r|, tail);
    StripDecides(line, r + tail, |r|);
  }

  lemma NoValueLine(line: string, sentinel: string)
    requires Find(line, '=', 0) == |line|
    ensures ScaffoldValueLine(line, sentinel) == RStrip(line) + (" " + sentinel)
    ensures line[..|RStrip(line)|] == RStrip(line)
  {
    assert RStrip(line) + " " + sentinel == RStrip(line) + (" " + sentinel);
  }

  lemma StripDecides(s: string, t: string, n: nat)
    requires n <= |s| && n <= |t| && forall i :: 0 <= i < n ==> t[i] == s[i]
    requires Find(s, '=', 0) == |s| && Find(t, '=', 0) == |t| && SpaceEnd(s, 0) < n
    ensures KindOf(t) == KindOf(s)
  {
    KindDecided(s, t, n);
  }

  lemma SameKindWithValue(line: string, sentinel: string)
    requires GoodSentinel(sentinel) && Visible(line) && Find(line, '=', 0) < |line|
    ensures KindOf(ScaffoldValueLine(line, sentinel)) == KindOf(line)
  {
    ValueLineKeepsName(line, sentinel);
    FirstBeforeEquals(line);
    PrefixDecides(line, ScaffoldValueLine(line, sentinel), Find(line, '=', 0) + 1);
  }

  lemma FirstBeforeEquals(line: string)
    requires Find(line, '=', 0) < |line|
    ensures SpaceEnd(line, 0) <= Find(line, '=', 0)
  {
    assert !IsSpace(line[Find(line, '=', 0)]);
  }

  lemma PrefixDecides(s: string, t: string, n: nat)
    requires n <= |s| && n <= |t| && forall i :: 0 <= i < n ==> t[i] == s[i]
    requires Find(s, '=', 0) < n && SpaceEnd(s, 0) < n
    ensures KindOf(t) == KindOf(s)
  {
    KindDecided(s, t, n);
  }

  /** Everything up to the equals sign stays. */
  lemma ValueLineKeepsName(line: string, sentinel: string)
    requires Find(line, '=', 0) < |line|
    ensures var u, n := ScaffoldValueLine(line, sentinel), Find(line, '=', 0) + 1;
            |u| >= n && forall i :: 0 <= i < n ==> u[i] == line[i]
  {
    var u, n := ScaffoldValueLine(line, sentinel), Find(line, '=', 0) + 1;
    PrefixEndsInEquals(line);
    if u != line {
      var rest := " " + sentinel + LStrip(line[n..]);
      assert u == line[..n] + " " + sentinel + LStrip(line[n..]);
      Pieces(line[..n], " ", sentinel, LStrip(line[n..]));
      PrefixChars(line, n, rest);
    }
  }

  lemma Pieces(a: string, b: string, c: string, d: string)
    ensures a + b + c + d == a + (b + c + d)
  {
  }

  lemma PrefixChars(s: string, n: nat, rest: string)
    requires n <= |s|
    ensures var u := s[..n] + rest; |u| >= n && forall i :: 0 <= i < n ==> u[i] == s[i]
  {
  }

  lemma SameMatches(p: Pattern, line: string, sentinel: string)
    requires GoodSentinel(sentinel)
    ensures Matches(p, ScaffoldValueLine(line, sentinel)) == Matches(p, line)
  {
    if Find(line, '=', 0) == |line| {
      var r, blanks := NoValueParts(line, sentinel);
      SpacesAreQuiet(blanks);
      EndsAlike(p, r, blanks, " " + sentinel);
    } else {
      var head, blanks, value := Parts(line, sentinel);
      SameMatchesValue(p, head, blanks, value, " " + sentinel);
    }
  }

  lemma StripSplits(line: string)
    ensures line == RStrip(line) + line[|RStrip(line)|..]
  {
    var r := RStrip(line);
    assert line[..|r|] == r && line == line[..|r|] + line[|r|..];
  }

  /** The parts of a line without an equals sign. */
  lemma NoValueParts(line: string, sentinel: string) returns (r: string, blanks: string)
    requires Find(line, '=', 0) == |line|
    ensures line == r + blanks && forall i :: 0 <= i < |blanks| ==> IsSpace(blanks[i])
    ensures ScaffoldValueLine(line, sentinel) == r + (" " + sentinel)
  {
    r := RStrip(line);
    blanks := line[|r|..];
    StripSplits(line);
    assert r + " " + sentinel == r + (" " + sentinel);
  }

  lemma EndsAlike(p: Pattern, r: string, x: string, y: string)
    requires Quiet(x) && Quiet(y)
    ensures Matches(p, r + x) == Matches(p, r + y)
  {
    QuietEnd(p, r, x);
    QuietEnd(p, r, y);
  }

  lemma SameMatchesValue(p: Pattern, head: string, blanks: string, value: string, inserted: string)
    requires head != "" && head[|head| - 1] == '=' && Lacks(inserted, '{')
    requires forall i :: 0 <= i < |blanks| ==> IsSpace(blanks[i])
    ensures Matches(p, head + (inserted + value)) == Matches(p, head + (blanks + value))
  {
    SpacesAreQuiet(blanks);
    SplitAtEquals(p, head, inserted + value);
    SplitAtEquals(p, head, blanks + value);
    QuietStart(p, inserted, value);
    QuietStart(p, blanks, value);
  }

  lemma SpacesAreQuiet(s: string)
    requires forall i :: 0 <= i < |s| ==> IsSpace(s[i])
    ensures Quiet(s)
  {
  }

  /** A trailing line break changes neither the branch nor the counts. */
  lemma NewlineIsSilent(u: string)
    requires Visible(u)
    ensures KindOf(u + "\n") == KindOf(u) && CountsOf(u + "\n") == CountsOf(u) && Visible(u + "\n")
  {
    QuietEnd(Placeholder, u, "\n");
    QuietEnd(Select, u, "\n");
    if Find(u, '=', 0) == |u| { FindIs(u + "\n", '=', 0, |u| + 1); }
    KindDecided(u, u + "\n", |u|);
    KindsOfAttr(u);
    KindsOfAttr(u + "\n");
    RunsAgree(u, u + "\n", |u|, 0);
  }

  lemma KindsOfAttr(u: string)
    ensures IsAttr(u) <==> KindOf(u) == AttrLine
  {
  }

  lemma NameShifts(a: string, s: string, i: nat)
    requires i <= |s|
    ensures NameBeforeEquals(a + s, |a| + i, IdentStart).Some? <==> NameBeforeEquals(s, i, IdentStart).Some?
  {
    assert Shifted(s, a + s, |a|);
    NameMoves(s, a + s, |a|, i);
  }

  lemma NameMoves(s: string, t: string, d: nat, i: nat)
    requires Shifted(s, t, d) && i <= |s|
    ensures NameBeforeEquals(t, d + i, IdentStart).Some? <==> NameBeforeEquals(s, i, IdentStart).Some?
  {
    var n := IdentEnd(s, i);
    RunsShift(s, t, d, i);
    RunsShift(s, t, d, n);
    CharShifts(s, t, d, i);
    CharShifts(s, t, d, SpaceEnd(s, n));
  }

  /** The validator matches ATTR_RE against the line without its indentation: the same lines match. */
  lemma IndentIsSilent(line: string)
    ensures IsAttr(LStrip(line)) <==> IsAttr(line)
  {
    var k := SpaceEnd(line, 0);
    var a, s := line[..k], LStrip(line);
    assert line == a + s;
    SpaceEndIs(s, 0, 0);
    if s != "" {
      AttrShifts(line, a, s);
    }
  }

  lemma AttrShifts(line: string, a: string, s: string)
    requires line == a + s && s != "" && SpaceEnd(line, 0) == |a| && SpaceEnd(s, 0) == 0
    ensures IsAttr(s) <==> IsAttr(line)
  {
    assert line[|a|] == s[0];
    NameShifts(a, s, 1);
  }

  /** The line the scaffold writes for a line of a block. */
  function Written(line: string, sentinel: string): string {
    if IsComment(line) then line else ScaffoldValueLine(line, sentinel)
  }

  // ---------- the line, by its parts ----------

  /** The line is `head`, its first equals sign, blanks and `value`. */
  predicate Splits(line: string, head: string, blanks: string, value: string) {
    line == head + "=" + blanks + value && Lacks(head, '=') && AllSpace(blanks) && (value != "" ==> !IsSpace(value[0]))
  }

  /** The line is `body` and blanks. */
  predicate Trails(line: string, body: string, blanks: string) {
    line == body + blanks && AllSpace(blanks) && (body != "" ==> !IsSpace(body[|body| - 1]))
  }

  /** The value begins with the sentinel, whatever blanks that ends in. */
  ghost predicate HasMark(value: string, sentinel: string) {
    exists mark, blanks :: Trails(sentinel, mark, blanks) && |mark| <= |value| && value[..|mark|] == mark
  }

  ghost predicate IsNote(line: string) {
    exists blanks, rest :: AllSpace(blanks) && line == blanks + "#" + rest
  }

  /** A comment stays; a value gets the sentinel in front, unless it has it; a line without an equals sign gets it
      at the end. */
  ghost predicate Rewrites(line: string, sentinel: string, u: string) {
    if IsNote(line) then u == line
    else
      && (forall head, blanks, value :: Splits(line, head, blanks, value) ==>
            u == if HasMark(value, sentinel) then line else head + "= " + sentinel + value)
      && (forall body, blanks :: Lacks(line, '=') && Trails(line, body, blanks) ==> u == body + " " + sentinel)
  }

  lemma NoteIs(line: string)
    ensures IsNote(line) <==> IsComment(line)
  {
    var k := SpaceEnd(line, 0);
    if IsComment(line) {
      assert line == line[..k] + "#" + line[k + 1..];
    }
    if IsNote(line) {
      var blanks, rest :| AllSpace(blanks) && line == blanks + "#" + rest;
      assert line[|blanks|] == '#' && forall i :: 0 <= i < |blanks| ==> line[i] == blanks[i];
      SpaceEndIs(line, 0, |blanks|);
    }
  }

  lemma TrailsIs(s: string, body: string, blanks: string)
    requires Trails(s, body, blanks)
    ensures RStrip(s) == body
  {
    var r := RStrip(s);
    assert forall j :: |body| <= j < |s| ==> s[j] == blanks[j - |body|];
    assert body != "" ==> s[|body| - 1] == body[|body| - 1];
    assert r != "" ==> s[|r| - 1] == r[|r| - 1];
    assert s[..|body|] == body;
  }

  lemma MarkIs(value: string, sentinel: string)
    ensures HasMark(value, sentinel) <==> StartsWith(value, RStrip(sentinel))
  {
    var mark := RStrip(sentinel);
    var blanks := sentinel[|mark|..];
    assert Trails(sentinel, mark, blanks);
    if HasMark(value, sentinel) {
      var m, b :| Trails(sentinel, m, b) && |m| <= |value| && value[..|m|] == m;
      TrailsIs(sentinel, m, b);
    }
  }

  lemma SplitIs(line: string, head: string, blanks: string, value: string)
    requires Splits(line, head, blanks, value)
    ensures var eq := Find(line, '=', 0);
            eq == |head| && line[..eq + 1] == head + "=" && LStrip(line[eq + 1..]) == value
  {
    assert line[|head|] == '=' && forall i :: 0 <= i < |head| ==> line[i] == head[i];
    FindIs(line, '=', 0, |head|);
    var tail := line[|head| + 1..];
    assert tail == blanks + value;
    SpaceEndIs(tail, 0, |blanks|);
  }

  lemma ValueLineRewrites(line: string, sentinel: string, head: string, blanks: string, value: string)
    requires Splits(line, head, blanks, value)
    ensures ScaffoldValueLine(line, sentinel) == if HasMark(value, sentinel) then line else head + "= " + sentinel + value
  {
    SplitIs(line, head, blanks, value);
    MarkIs(value, sentinel);
    PrefixEndsInEquals(line);
    Grouped(head + "=", " ", sentinel, value);
    assert head + "=" + " " == head + "= ";
  }

  lemma BareLineRewrites(line: string, sentinel: string, body: string, blanks: string)
    requires Lacks(line, '=') && Trails(line, body, blanks)
    ensures ScaffoldValueLine(line, sentinel) == body + " " + sentinel
  {
    TrailsIs(line, body, blanks);
    FindIs(line, '=', 0, |line|);
  }

  lemma WrittenRewrites(line: string, sentinel: string)
    ensures Rewrites(line, sentinel, Written(line, sentinel))
  {
    NoteIs(line);
    if !IsNote(line) {
      var u := Written(line, sentinel);
      forall head, blanks, value | Splits(line, head, blanks, value)
        ensures u == if HasMark(value, sentinel) then line else head + "= " + sentinel + value
      {
        ValueLineRewrites(line, sentinel, head, blanks, value);
      }
      forall body, blanks | Lacks(line, '=') && Trails(line, body, blanks)
        ensures u == body + " " + sentinel
      {
        BareLineRewrites(line, sentinel, body, blanks);
      }
    }
  }

  /** The parts of any line: it splits at an equals sign, or has none. */
  lemma LineHasParts(line: string) returns (head: string, blanks: string, value: string)
    ensures !Lacks(line, '=') ==> Splits(line, head, blanks, value)
    ensures Lacks(line, '=') ==> Trails(line, head, blanks)
  {
    var eq := Find(line, '=', 0);
    if eq == |line| {
      head, value := RStrip(line), "";
      blanks := line[|head|..];
      TrailsAtEnd(line);
    } else {
      head, blanks, value := SplitsAt(line, eq);
    }
  }

  lemma TrailsAtEnd(line: string)
    ensures Trails(line, RStrip(line), line[|RStrip(line)|..])
  {
    StripSplits(line);
  }

  lemma SplitsAt(line: string, eq: nat) returns (head: string, blanks: string, value: string)
    requires eq < |line| && eq == Find(line, '=', 0)
    ensures Splits(line, head, blanks, value)
  {
    var tail := line[eq + 1..];
    var k := SpaceEnd(tail, 0);
    head, blanks, value := line[..eq], tail[..k], tail[k..];
    AtEquals(line, eq, blanks, value);
  }

  lemma AtEquals(line: string, eq: nat, blanks: string, value: string)
    requires eq < |line| && line[eq] == '=' && line[eq + 1..] == blanks + value
    ensures line == line[..eq] + "=" + blanks + value
  {
    assert line == line[..eq] + "=" + line[eq + 1..];
  }

  /** That determines the line that is written. */
  lemma RewritesIsUnique(line: string, sentinel: string, u: string, v: string)
    requires Rewrites(line, sentinel, u) && Rewrites(line, sentinel, v)
    ensures u == v
  {
    var head, blanks, value := LineHasParts(line);
  }

  /** Rewriting a rewritten line changes nothing exactly when the sentinel is blank, or the line has an equals sign
      and the sentinel does not begin with a blank; other lines get another sentinel each time. */
  lemma RewritingAgainIff(line: string, sentinel: string)
    ensures var once := ScaffoldValueLine(line, sentinel);
            ScaffoldValueLine(once, sentinel) == once <==> AllSpace(sentinel) || (!Lacks(line, '=') && !IsSpace(sentinel[0]))
  {
    var head, blanks, value := LineHasParts(line);
    if Lacks(line, '=') {
      BareLineRewrites(line, sentinel, head, blanks);
      BareLineGrowsIff(head, sentinel);
    } else {
      ValueLineRewrites(line, sentinel, head, blanks, value);
      ValueLineGrowsIff(line, sentinel, head, blanks, value);
    }
  }

  lemma BareLineGrowsIff(body: string, sentinel: string)
    requires Lacks(body, '=') && (body != "" ==> !IsSpace(body[|body| - 1]))
    ensures var once := body + " " + sentinel; ScaffoldValueLine(once, sentinel) == once <==> AllSpace(sentinel)
  {
    if AllSpace(sentinel) {
      assert body + " " + sentinel == body + (" " + sentinel);
      BareLineRewrites(body + " " + sentinel, sentinel, body, " " + sentinel);
    } else if Lacks(sentinel, '=') {
      BareLineGrows(body, sentinel);
    } else {
      EqualsInTheSentinel(body, sentinel);
    }
  }

  /** The first equals sign of the rewritten line is then one of the sentinel's. */
  lemma EqualsInTheSentinel(body: string, sentinel: string)
    requires Lacks(body, '=') && !Lacks(sentinel, '=')
    ensures var once := body + " " + sentinel; ScaffoldValueLine(once, sentinel) != once
  {
    var once := body + " " + sentinel;
    var head, blanks, value := LineHasParts(sentinel);
    SentinelSplits(body, sentinel, head, blanks, value);
    ValueLineRewrites(once, sentinel, body + " " + head, blanks, value);
    NotItsOwnMark(sentinel, value, |head| + 1 + |blanks|);
  }

  lemma SentinelSplits(body: string, sentinel: string, head: string, blanks: string, value: string)
    requires Lacks(body, '=') && Splits(sentinel, head, blanks, value)
    ensures Splits(body + " " + sentinel, body + " " + head, blanks, value)
    ensures !AllSpace(sentinel) && value == sentinel[|head| + 1 + |blanks|..]
  {
    assert body + " " + sentinel == (body + " " + head) + "=" + blanks + value;
    assert sentinel[|head|] == '=';
  }

  /** A text is not the beginning of what is left of it. */
  lemma NotItsOwnMark(sentinel: string, value: string, k: nat)
    requires 0 < k <= |sentinel| && value == sentinel[k..] && !AllSpace(sentinel)
    ensures !HasMark(value, sentinel)
  {
    var mark := RStrip(sentinel);
    MarkIs(value, sentinel);
    MarkIsVisible(sentinel);
    if |mark| <= |value| {
      assert value[|mark| - 1] == sentinel[|mark| - 1 + k];
      assert !IsSpace(mark[|mark| - 1]);
    }
  }

  lemma ValueLineGrowsIff(line: string, sentinel: string, head: string, blanks: string, value: string)
    requires Splits(line, head, blanks, value)
    ensures var once := if HasMark(value, sentinel) then line else head + "= " + sentinel + value;
            ScaffoldValueLine(once, sentinel) == once <==> AllSpace(sentinel) || !IsSpace(sentinel[0])
  {
    MarkIs(value, sentinel);
    ValueLineRewrites(line, sentinel, head, blanks, value);
    if AllSpace(sentinel) {
      TrailsIs(sentinel, "", sentinel);
    } else if IsSpace(sentinel[0]) {
      MarkIsVisible(sentinel);
      IndentedMarkGrows(sentinel, head, value);
    } else if !HasMark(value, sentinel) {
      MarkedAlready(head, sentinel, value);
    }
  }

  lemma IndentedMarkGrows(sentinel: string, head: string, value: string)
    requires !AllSpace(sentinel) && IsSpace(sentinel[0]) && Lacks(head, '=') && (value != "" ==> !IsSpace(value[0]))
    ensures var once := head + "= " + sentinel + value; ScaffoldValueLine(once, sentinel) != once
  {
    var once, k := head + "= " + sentinel + value, SpaceEnd(sentinel, 0);
    var core := sentinel[k..];
    assert core != "" by { assert AllSpace(sentinel[..k]) && sentinel == sentinel[..k] + core; }
    assert once == head + "=" + (" " + sentinel[..k]) + (core + value);
    MarkIs(core + value, sentinel);
    MarkIsVisible(sentinel);
    ValueLineRewrites(once, sentinel, head, " " + sentinel[..k], core + value);
  }

  lemma MarkedAlready(head: string, sentinel: string, value: string)
    requires sentinel != "" && !IsSpace(sentinel[0]) && Lacks(head, '=')
    ensures var once := head + "= " + sentinel + value; ScaffoldValueLine(once, sentinel) == once
  {
    var once, more := head + "= " + sentinel + value, sentinel + value;
    assert once == head + "=" + " " + more;
    assert Splits(once, head, " ", more);
    ValueLineRewrites(once, sentinel, head, " ", more);
    var mark := RStrip(sentinel);
    assert more[..|mark|] == sentinel[..|mark|];
    MarkIs(more, sentinel);
  }

  lemma BareLineGrows(body: string, sentinel: string)
    requires !AllSpace(sentinel) && Lacks(sentinel, '=') && Lacks(body, '=')
    ensures var once := body + " " + sentinel; ScaffoldValueLine(once, sentinel) != once
  {
    var once, mark := body + " " + sentinel, RStrip(sentinel);
    var blanks := sentinel[|mark|..];
    StripSplits(sentinel);
    MarkIsVisible(sentinel);
    assert once == (body + " " + mark) + blanks;
    assert Trails(once, body + " " + mark, blanks);
    BareLineRewrites(once, sentinel, body + " " + mark, blanks);
    assert |body + " " + mark + " " + sentinel| > |once|;
  }

  lemma MarkIsVisible(sentinel: string)
    requires !AllSpace(sentinel)
    ensures RStrip(sentinel) != ""
  {
  }

  lemma WrittenReadsTheSame(line: string, sentinel: string)
    requires GoodSentinel(sentinel) && Visible(line)
    ensures var u := Written(line, sentinel);
            Visible(u) && KindOf(u) == KindOf(line) && CountsOf(u) == CountsOf(line)
  {
    if !IsComment(line) {
      SameKind(line, sentinel);
      SameMatches(Placeholder, line, sentinel);
      SameMatches(Select, line, sentinel);
    }
    KindsOfAttr(line);
    KindsOfAttr(Written(line, sentinel));
    assert KindOf(Written(line, sentinel)) != BlankLine;
  }

  /** It is still one line. */
  lemma WrittenIsALine(line: string, sentinel: string)
    requires GoodSentinel(sentinel) && Visible(line) && IsLine(line)
    ensures IsLine(Written(line, sentinel))
  {
    if Find(line, '=', 0) == |line| {
      var r := RStrip(line);
      FirstVisible(line);
      LineWithTail(line, r, " " + sentinel);
      assert r + " " + sentinel == r + (" " + sentinel);
    } else {
      var head, blanks, value := Parts(line, sentinel);
      LineWithInsert(head, blanks, value, " " + sentinel);
    }
  }

  lemma LineWithTail(line: string, r: string, tail: string)
    requires IsLine(line) && r == RStrip(line) && r != "" && NoBreak(tail)
    ensures IsLine(r + tail)
  {
    assert forall i :: 0 <= i < |line| - 1 ==> line[..|line| - 1][i] == line[i];
    assert forall i :: 0 <= i < |r| ==> r[i] == line[i];
    assert !IsSpace(r[|r| - 1]);
  }

  lemma LineWithInsert(head: string, blanks: string, value: string, inserted: string)
    requires IsLine(head + (blanks + value)) && head != "" && head[|head| - 1] == '=' && NoBreak(inserted)
    ensures IsLine(head + (inserted + value))
  {
    var line, u := head + (blanks + value), head + (inserted + value);
    assert forall i :: 0 <= i < |line| - 1 ==> line[..|line| - 1][i] == line[i];
    forall i | 0 <= i < |u| - 1
      ensures !IsBreak(u[i])
    {
      if i < |head| {
        assert u[i] == line[i];
      } else if i >= |head| + |inserted| {
        assert u[i] == line[i - |inserted| + |blanks|];
      }
    }
  }
}
