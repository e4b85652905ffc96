/**
  `scaffold_bundle` and `validate_scaffold` of scripts/translate-stub.py: the
  generated scaffold, parsed again, has the same keys with the same counts, so
  it passes its own gate.
 */
module Scaffold {
  import opened Sequences
  import opened PyText
  import opened FtlPatterns
  import opened FtlBlocks
  import opened ScaffoldLine
  import opened BlockShape

  // ---------- the scaffold ----------

  const HINT_1 := " HINT (auto-generated by translate-stub.py):"
  const HINT_3 := " Replace each `[TODO]` sentinel below"
  const HINT_3_END := " with the actual Indonesian"
  const HINT_4 := " translation. Placeholders"
  const HINT_4_END := " (e.g. { $count }) and select"
  const HINT_5 := " expressions must be preserved verbatim."

  function Hash(text: string): string {
    "#" + text + "\n"
  }

  function HintLines(hint: string): seq<string> {
    [Hash(HINT_1), Hash("   " + hint), Hash(HINT_3 + HINT_3_END), Hash(HINT_4 + HINT_4_END), Hash(HINT_5)]
  }

  /** What the scaffold holds for one line of a block. */
  function LineText(line: string, sentinel: string): string {
    if IsBlank(line) then ""
    else if IsComment(line) then line + "\n"
    else ScaffoldValueLine(line, sentinel) + "\n"
  }

  function LinesText(lines: seq<string>, sentinel: string): string {
    if lines == [] then "" else LineText(lines[0], sentinel) + LinesText(lines[1..], sentinel)
  }

  function BlockText(b: Block, sentinel: string): string {
    if b.key == BLANK then "\n" else LinesText(b.lines, sentinel)
  }

  function BodyText(blocks: seq<Block>, sentinel: string): string {
    if blocks == [] then "" else BlockText(blocks[0], sentinel) + BodyText(blocks[1..], sentinel)
  }

  function ScaffoldText(p: Parse, sentinel: string, hint: string): string {
    Join(HintLines(hint)) + Join(p.headers) + BodyText(p.blocks, sentinel)
  }

  method ScaffoldBundle(text: string, sentinel: string, hint: string) returns (out: string)
    ensures out == ScaffoldText(Collect(text), sentinel, hint)
  {
    var headers, blocks := CollectBlocks(text);
    var segments := HintLines(hint) + headers;
    JoinAppend(HintLines(hint), headers);
    for i := 0 to |blocks|
      invariant Join(segments) + BodyText(blocks[i..], sentinel) == Join(HintLines(hint) + headers) + BodyText(blocks, sentinel)
    {
      var b := blocks[i];
      assert blocks[i..][0] == b && blocks[i..][1..] == blocks[i + 1..];
      if b.key == BLANK {
        AppendSegment(segments, "\n", BodyText(blocks[i + 1..], sentinel));
        segments := segments + ["\n"];
        continue;
      }
      segments := AppendBlock(segments, b.lines, sentinel, BodyText(blocks[i + 1..], sentinel));
    }
    assert blocks[|blocks|..] == [];
    out := Join(segments);
  }

  lemma AppendSegment(segments: seq<string>, s: string, rest: string)
    ensures Join(segments + [s]) + rest == Join(segments) + (s + rest)
  {
    JoinAppend(segments, [s]);
    assert [s][1..] == [] && Join([s]) == s + "" == s;
    assert Join(segments) + s + rest == Join(segments) + (s + rest);
  }

  /** The inner loop over the lines of a block. */
  method AppendBlock(before: seq<string>, lines: seq<string>, sentinel: string, ghost rest: string) returns (segments: seq<string>)
    ensures Join(segments) + rest == Join(before) + (LinesText(lines, sentinel) + rest)
  {
    segments := before;
    for i := 0 to |lines|
      invariant Join(segments) + (LinesText(lines[i..], sentinel) + rest) == Join(before) + (LinesText(lines, sentinel) + rest)
    {
      var line := lines[i];
      ghost var more := LinesText(lines[i + 1..], sentinel) + rest;
      LinesTextStep(lines, i, sentinel, rest);
      if IsBlank(line) {
        assert "" + more == more;
        continue;
      }
      if IsComment(line) {
        AppendSegment(segments, line + "\n", more);
        segments := segments + [line + "\n"];
        continue;
      }
      AppendSegment(segments, ScaffoldValueLine(line, sentinel) + "\n", more);
      segments := segments + [ScaffoldValueLine(line, sentinel) + "\n"];
    }
    assert lines[|lines|..] == [] && LinesText([], sentinel) + rest == rest;
  }

  lemma LinesTextStep(lines: seq<string>, i: nat, sentinel: string, rest: string)
    requires i < |lines|
    ensures LinesText(lines[i..], sentinel) + rest == LineText(lines[i], sentinel) + (LinesText(lines[i + 1..], sentinel) + rest)
  {
    assert lines[i..][0] == lines[i] && lines[i..][1..] == lines[i + 1..];
  }

  // ---------- the scaffold of any source, line by line ----------

  /** What stands in the scaffold for the lines of a block: nothing for a blank line, and the rewritten line with a
      line break for each of the others. */
  ghost predicate LinesRead(lines: seq<string>, sentinel: string, written: seq<string>) {
    && |written| == |lines|
    && forall i :: 0 <= i < |lines| ==>
         if AllSpace(lines[i]) then written[i] == ""
         else exists u :: Rewrites(lines[i], sentinel, u) && written[i] == u + "\n"
  }

  /** A separator is an empty line. */
  ghost predicate BlocksRead(blocks: seq<Block>, sentinel: string, written: seq<seq<string>>) {
    && |written| == |blocks|
    && forall i :: 0 <= i < |blocks| ==>
         if blocks[i].key == "__blank__" then written[i] == ["\n"] else LinesRead(blocks[i].lines, sentinel, written[i])
  }

  function JoinAll(written: seq<seq<string>>): string {
    if written == [] then "" else Join(written[0]) + JoinAll(written[1..])
  }

  lemma LineReads(line: string, sentinel: string)
    ensures if AllSpace(line) then LineText(line, sentinel) == ""
            else exists u :: Rewrites(line, sentinel, u) && LineText(line, sentinel) == u + "\n"
  {
    assert IsBlank(line) <==> AllSpace(line);
    WrittenRewrites(line, sentinel);
    if !IsBlank(line) {
      assert LineText(line, sentinel) == Written(line, sentinel) + "\n";
    }
  }

  lemma {:induction false} LinesReadBack(lines: seq<string>, sentinel: string) returns (written: seq<string>)
    ensures LinesRead(lines, sentinel, written) && Join(written) == LinesText(lines, sentinel)
  {
    if lines == [] {
      written := [];
    } else {
      LineReads(lines[0], sentinel);
      var rest := LinesReadBack(lines[1..], sentinel);
      written := [LineText(lines[0], sentinel)] + rest;
      assert written[1..] == rest;
    }
  }

  lemma {:induction false} BlocksReadBack(blocks: seq<Block>, sentinel: string) returns (written: seq<seq<string>>)
    ensures BlocksRead(blocks, sentinel, written) && JoinAll(written) == BodyText(blocks, sentinel)
  {
    if blocks == [] {
      written := [];
    } else {
      var first := ["\n"];
      if blocks[0].key == BLANK {
        JoinsOne("\n");
      } else {
        first := LinesReadBack(blocks[0].lines, sentinel);
      }
      var rest := BlocksReadBack(blocks[1..], sentinel);
      written := [first] + rest;
      assert written[1..] == rest;
    }
  }

  /** For every source: five fixed lines with the hint in the second, the header comments as they are, and then each
      line of each block as `Rewrites` says, which determines it. */
  lemma ScaffoldReads(text: string, sentinel: string, hint: string) returns (written: seq<seq<string>>)
    ensures BlocksRead(Collect(text).blocks, sentinel, written)
    ensures ScaffoldText(Collect(text), sentinel, hint) ==
            Join(["#" + " HINT (auto-generated by translate-stub.py):" + "\n",
                  "#" + ("   " + hint) + "\n",
                  "#" + (" Replace each `[TODO]` sentinel below" + " with the actual Indonesian") + "\n",
                  "#" + (" translation. Placeholders" + " (e.g. { $count }) and select") + "\n",
                  "#" + " expressions must be preserved verbatim." + "\n"])
            + Join(Collect(text).headers) + JoinAll(written)
  {
    written := BlocksReadBack(Collect(text).blocks, sentinel);
  }

  // ---------- the scaffold, line by line ----------

  /** A written line that keeps its own line break is followed by an empty line. */
  function WithBreak(u: string): seq<string> {
    if Ended(u) then [u, "\n"] else [u + "\n"]
  }

  function BlockLines(lines: seq<string>, sentinel: string): seq<string> {
    if lines == [] then [] else WithBreak(Written(lines[0], sentinel)) + BlockLines(lines[1..], sentinel)
  }

  function OwnLines(b: Block, sentinel: string): seq<string> {
    if b.key == BLANK then ["\n"] else BlockLines(b.lines, sentinel)
  }

  function BodyLines(blocks: seq<Block>, sentinel: string): seq<string> {
    if blocks == [] then [] else OwnLines(blocks[0], sentinel) + BodyLines(blocks[1..], sentinel)
  }

  /** Whole lines with their line breaks. */
  ghost predicate FullLines(lines: seq<string>) {
    forall i :: 0 <= i < |lines| ==> IsLine(lines[i]) && Ended(lines[i])
  }

  lemma WithBreakIsLines(line: string, sentinel: string)
    requires GoodSentinel(sentinel) && IsLine(line) && Visible(line)
    ensures FullLines(WithBreak(Written(line, sentinel)))
    ensures Join(WithBreak(Written(line, sentinel))) == LineText(line, sentinel)
  {
    var u := Written(line, sentinel);
    WrittenIsALine(line, sentinel);
    if Ended(u) {
      TwoFullLines(u);
    } else {
      JoinsOne(u + "\n");
      ClosedIsLine(u);
    }
  }

  lemma TwoFullLines(u: string)
    requires IsLine(u) && Ended(u)
    ensures FullLines([u, "\n"]) && Join([u, "\n"]) == u + "\n"
  {
    assert [u, "\n"][1..] == ["\n"];
    JoinsOne("\n");
    BreakIsLine();
  }

  lemma BreakIsLine()
    ensures IsLine("\n") && Ended("\n") && IsBlank("\n")
  {
  }

  lemma JoinsOne(s: string)
    ensures Join([s]) == s
  {
    assert [s][1..] == [] && s + "" == s;
  }

  lemma {:induction false} BlockLinesAreLines(key: string, lines: seq<string>, sentinel: string)
    requires GoodSentinel(sentinel) && forall i :: 0 <= i < |lines| ==> LineOf(key, lines[i])
    ensures FullLines(BlockLines(lines, sentinel)) && Join(BlockLines(lines, sentinel)) == LinesText(lines, sentinel)
    decreases |lines|
  {
    if lines != [] {
      assert LineOf(key, lines[0]);
      WithBreakIsLines(lines[0], sentinel);
      BlockLinesAreLines(key, lines[1..], sentinel);
      FullLinesAppend(WithBreak(Written(lines[0], sentinel)), BlockLines(lines[1..], sentinel));
    }
  }

  lemma FullLinesAppend(a: seq<string>, b: seq<string>)
    requires FullLines(a) && FullLines(b)
    ensures FullLines(a + b) && Join(a + b) == Join(a) + Join(b)
  {
    JoinAppend(a, b);
  }

  lemma {:induction false} BodyLinesAreLines(blocks: seq<Block>, sentinel: string)
    requires GoodSentinel(sentinel) && forall i :: 0 <= i < |blocks| ==> ShapedBlock(blocks[i])
    ensures FullLines(BodyLines(blocks, sentinel)) && Join(BodyLines(blocks, sentinel)) == BodyText(blocks, sentinel)
    decreases |blocks|
  {
    if blocks != [] {
      var b := blocks[0];
      assert ShapedBlock(b);
      var own := OwnLines(b, sentinel);
      if b.key == BLANK {
        JoinsOne("\n");
        BreakIsLine();
      } else {
        BlockLinesAreLines(b.key, b.lines, sentinel);
      }
      BodyLinesAreLines(blocks[1..], sentinel);
      FullLinesAppend(own, BodyLines(blocks[1..], sentinel));
    }
  }

  lemma HintIsLines(hint: string)
    requires NoBreak(hint)
    ensures FullLines(HintLines(hint)) && forall i :: 0 <= i < 5 ==> KindOf(HintLines(hint)[i]) == CommentLine
  {
    FirstHint();
    SentinelHint();
    PlaceholderHint();
    LastHint();
    HashLine(HINT_1);
    HashLine("   " + hint);
    HashLine(HINT_3 + HINT_3_END);
    HashLine(HINT_4 + HINT_4_END);
    HashLine(HINT_5);
  }

  lemma NoBreakJoins(a: string, b: string)
    requires NoBreak(a) && NoBreak(b)
    ensures NoBreak(a + b)
  {
  }

  lemma FirstHint() ensures NoBreak(HINT_1) {}

  lemma SentinelHint()
    ensures NoBreak(HINT_3 + HINT_3_END)
  {
    NoBreakJoins(HINT_3, HINT_3_END);
  }

  lemma PlaceholderHint()
    ensures NoBreak(HINT_4 + HINT_4_END)
  {
    NoBreakJoins(HINT_4, HINT_4_END);
  }

  lemma LastHint() ensures NoBreak(HINT_5) {}

  lemma HashLine(text: string)
    requires NoBreak(text)
    ensures IsLine(Hash(text)) && Ended(Hash(text)) && KindOf(Hash(text)) == CommentLine
  {
    var s := "#" + text;
    assert Hash(text) == s + "\n" && (s + "\n")[..|s|] == s;
    SpaceEndIs(s + "\n", 0, 0);
  }

  // ---------- reading it back ----------

  lemma ReadOne(m: Measure, r: Reading, raw: string)
    ensures ReadAll(m, r, [raw]) == Read(m, r, raw)
  {
    assert [raw][1..] == [];
  }

  /** Reading what was written for a line is reading the line. */
  lemma WrittenIsRead(r: Reading, line: string, sentinel: string)
    requires GoodSentinel(sentinel) && Visible(line)
    ensures ReadAll(CountsOf, r, WithBreak(Written(line, sentinel))) == Read(CountsOf, r, line)
  {
    WrittenReadsTheSame(line, sentinel);
    var u := Written(line, sentinel);
    SameRead(r, u, line);
    BreaksAreSilent(r, u);
  }

  lemma SameRead(r: Reading, u: string, line: string)
    requires KindOf(u) == KindOf(line) && CountsOf(u) == CountsOf(line)
    ensures Read(CountsOf, r, u) == Read(CountsOf, r, line)
  {
  }

  lemma BreaksAreSilent(r: Reading, u: string)
    requires Visible(u)
    ensures ReadAll(CountsOf, r, WithBreak(u)) == Read(CountsOf, r, u)
  {
    if Ended(u) {
      BreakIsSilent(r, u);
    } else {
      NewlineIsSilent(u);
      ReadOne(CountsOf, r, u + "\n");
      SameRead(r, u + "\n", u);
    }
  }

  lemma BreakIsSilent(r: Reading, u: string)
    ensures ReadAll(CountsOf, r, [u, "\n"]) == Read(CountsOf, r, u)
  {
    ReadOne(CountsOf, r, u);
    ReadOne(CountsOf, Read(CountsOf, r, u), "\n");
    ReadAllJoins(CountsOf, r, [u], ["\n"]);
    assert [u] + ["\n"] == [u, "\n"];
    BreakIsLine();
  }

  lemma {:induction false} BlockLinesAreRead(r: Reading, key: string, lines: seq<string>, sentinel: string)
    requires GoodSentinel(sentinel) && forall i :: 0 <= i < |lines| ==> LineOf(key, lines[i])
    ensures ReadAll(CountsOf, r, BlockLines(lines, sentinel)) == ReadAll(CountsOf, r, lines)
    decreases |lines|
  {
    if lines != [] {
      assert LineOf(key, lines[0]);
      WrittenIsRead(r, lines[0], sentinel);
      ReadAllJoins(CountsOf, r, WithBreak(Written(lines[0], sentinel)), BlockLines(lines[1..], sentinel));
      BlockLinesAreRead(Read(CountsOf, r, lines[0]), key, lines[1..], sentinel);
    }
  }

  /** Lines of one key add up in the last entry. */
  lemma {:induction false} ReadOwnLines(m: Measure, r: Reading, key: string, lines: seq<string>, front: seq<Entry>, c: Counts)
    requires key != BLANK && r.owner == LastEntry && r.entries == front + [Entry(key, c)]
    requires forall i :: 0 <= i < |lines| ==> LineOf(key, lines[i])
    ensures ReadAll(m, r, lines) == r.(entries := front + [Entry(key, Plus(c, Sum(m, lines)))])
    decreases |lines|
  {
    if lines != [] {
      assert LineOf(key, lines[0]);
      AddToLast(front, key, c, m(lines[0]));
      assert Read(m, r, lines[0]) == r.(entries := front + [Entry(key, Plus(c, m(lines[0])))]);
      ReadOwnLines(m, Read(m, r, lines[0]), key, lines[1..], front, Plus(c, m(lines[0])));
    }
  }

  lemma ReadBlock(m: Measure, r: Reading, b: Block)
    requires ShapedBlock(b) && b.key != BLANK && LastKey(r.entries) != Some(b.key)
    ensures ReadAll(m, r, b.lines) == Reading(r.headers, r.entries + [Entry(b.key, Sum(m, b.lines))], LastEntry)
  {
    var first := Read(m, r, b.lines[0]);
    assert first == Reading(r.headers, r.entries + [Entry(b.key, m(b.lines[0]))], LastEntry);
    assert forall i :: 0 <= i < |b.lines[1..]| ==> b.lines[1..][i] == b.lines[i + 1];
    ReadOwnLines(m, first, b.key, b.lines[1..], r.entries, m(b.lines[0]));
  }

  lemma PreviousIsAnother(blocks: seq<Block>, i: nat)
    requires Shaped(blocks) && i < |blocks| && blocks[i].key != BLANK
    ensures LastKey(Summary(CountsOf, blocks[..i])) != Some(blocks[i].key)
  {
    SummaryOfLast(CountsOf, blocks[..i]);
    var j := LastReal(blocks[..i]);
    if j >= 0 {
      assert IsReal(blocks[j]) && IsReal(blocks[i]);
      assert forall k :: j < k < i ==> blocks[k] == blocks[..i][k] && !IsReal(blocks[k]);
    }
  }

  /** Reading the body block after block rebuilds the summary of the blocks. */
  lemma {:induction false} BodyIsRead(r: Reading, blocks: seq<Block>, i: nat, sentinel: string)
    requires GoodSentinel(sentinel) && Shaped(blocks) && i <= |blocks|
    requires r.entries == Summary(CountsOf, blocks[..i])
    ensures ReadAll(CountsOf, r, BodyLines(blocks[i..], sentinel)).entries == Summary(CountsOf, blocks)
    ensures ReadAll(CountsOf, r, BodyLines(blocks[i..], sentinel)).headers == r.headers
    decreases |blocks| - i
  {
    if i == |blocks| {
      assert blocks[..i] == blocks;
    } else {
      var b := blocks[i];
      assert blocks[i..][0] == b && blocks[i..][1..] == blocks[i + 1..];
      OneBlockIsRead(r, blocks, i, sentinel);
      ReadAllJoins(CountsOf, r, OwnLines(b, sentinel), BodyLines(blocks[i + 1..], sentinel));
      BodyIsRead(ReadAll(CountsOf, r, OwnLines(b, sentinel)), blocks, i + 1, sentinel);
    }
  }

  lemma OneBlockIsRead(r: Reading, blocks: seq<Block>, i: nat, sentinel: string)
    requires GoodSentinel(sentinel) && Shaped(blocks) && i < |blocks|
    requires r.entries == Summary(CountsOf, blocks[..i])
    ensures var next := ReadAll(CountsOf, r, OwnLines(blocks[i], sentinel));
            next.entries == Summary(CountsOf, blocks[..i + 1]) && next.headers == r.headers
  {
    var b := blocks[i];
    assert blocks[..i + 1] == blocks[..i] + [b];
    SummarySnoc(CountsOf, blocks[..i], b);
    if b.key == BLANK {
      BreakIsLine();
      ReadOne(CountsOf, r, "\n");
    } else {
      assert ShapedBlock(b);
      PreviousIsAnother(blocks, i);
      BlockLinesAreRead(r, b.key, b.lines, sentinel);
      ReadBlock(CountsOf, r, b);
    }
  }

  lemma {:induction false} CommentsAreHeaders(r: Reading, lines: seq<string>)
    requires r.owner == Nobody && forall i :: 0 <= i < |lines| ==> KindOf(lines[i]) == CommentLine
    ensures ReadAll(CountsOf, r, lines) == r.(headers := r.headers + |lines|)
    decreases |lines|
  {
    if lines != [] {
      CommentsAreHeaders(Read(CountsOf, r, lines[0]), lines[1..]);
    }
  }

  /** The scaffold of whole header lines and blocks, read back. */
  lemma WholeScaffoldIsRead(headers: seq<string>, blocks: seq<Block>, sentinel: string, hint: string)
    requires GoodSentinel(sentinel) && NoBreak(hint) && Shaped(blocks)
    requires forall i :: 0 <= i < |headers| ==> IsLine(headers[i]) && KindOf(headers[i]) == CommentLine
    requires AllEnded(headers) || (blocks == [] && headers != [] && AllEnded(headers[..|headers| - 1]))
    ensures var r := ReadAll(CountsOf, UNREAD, SplitLines(Join(HintLines(hint)) + Join(headers) + BodyText(blocks, sentinel)));
            r.entries == Summary(CountsOf, blocks) && r.headers == 5 + |headers|
  {
    var hints, body := HintLines(hint), BodyLines(blocks, sentinel);
    HintIsLines(hint);
    BodyLinesAreLines(blocks, sentinel);
    HeadersThenBody(headers, body);
    ScaffoldCuts(hints, headers, body);
    PartsAreRead(hints, headers, blocks, sentinel);
  }

  lemma JoinThree(a: seq<string>, b: seq<string>, c: seq<string>)
    ensures Join(a) + Join(b) + Join(c) == Join(a + (b + c))
  {
    JoinAppend(b, c);
    JoinAppend(a, b + c);
    Associates(Join(a), Join(b), Join(c));
  }

  lemma Associates(x: string, y: string, z: string)
    ensures x + y + z == x + (y + z)
  {
  }

  lemma ScaffoldCuts(hints: seq<string>, headers: seq<string>, body: seq<string>)
    requires FullLines(hints) && AreLines(headers + body)
    ensures SplitLines(Join(hints) + Join(headers) + Join(body)) == hints + (headers + body)
  {
    JoinThree(hints, headers, body);
    FullThenLines(hints, headers + body);
    SplitOfJoin(hints + (headers + body));
  }

  lemma FullThenLines(front: seq<string>, back: seq<string>)
    requires FullLines(front) && AreLines(back)
    ensures AreLines(front + back)
  {
  }

  lemma ReadThree(m: Measure, r: Reading, a: seq<string>, b: seq<string>, c: seq<string>)
    ensures ReadAll(m, r, a + (b + c)) == ReadAll(m, ReadAll(m, ReadAll(m, r, a), b), c)
  {
    ReadAllJoins(m, r, a, b + c);
    ReadAllJoins(m, ReadAll(m, r, a), b, c);
  }

  lemma PartsAreRead(hints: seq<string>, headers: seq<string>, blocks: seq<Block>, sentinel: string)
    requires GoodSentinel(sentinel) && Shaped(blocks)
    requires forall i :: 0 <= i < |hints| ==> KindOf(hints[i]) == CommentLine
    requires forall i :: 0 <= i < |headers| ==> KindOf(headers[i]) == CommentLine
    ensures var r := ReadAll(CountsOf, UNREAD, hints + (headers + BodyLines(blocks, sentinel)));
            r.entries == Summary(CountsOf, blocks) && r.headers == |hints| + |headers|
  {
    var r1, r2 := Reading(|hints|, [], Nobody), Reading(|hints| + |headers|, [], Nobody);
    var body := BodyLines(blocks, sentinel);
    ReadThree(CountsOf, UNREAD, hints, headers, body);
    CommentsAreHeaders(UNREAD, hints);
    assert ReadAll(CountsOf, UNREAD, hints) == r1;
    CommentsAreHeaders(r1, headers);
    assert ReadAll(CountsOf, r1, headers) == r2;
    BodyFromStart(r2, blocks, sentinel);
  }

  lemma BodyFromStart(r: Reading, blocks: seq<Block>, sentinel: string)
    requires GoodSentinel(sentinel) && Shaped(blocks) && r.entries == []
    ensures ReadAll(CountsOf, r, BodyLines(blocks, sentinel)).entries == Summary(CountsOf, blocks)
    ensures ReadAll(CountsOf, r, BodyLines(blocks, sentinel)).headers == r.headers
  {
    assert blocks[..0] == [] && blocks[0..] == blocks;
    BodyIsRead(r, blocks, 0, sentinel);
  }

  lemma HeadersThenBody(headers: seq<string>, body: seq<string>)
    requires forall i :: 0 <= i < |headers| ==> IsLine(headers[i])
    requires FullLines(body)
    requires AllEnded(headers) || (body == [] && headers != [] && AllEnded(headers[..|headers| - 1]))
    ensures AreLines(headers + body)
  {
    var all := headers + body;
    forall i | 0 <= i < |all|
      ensures IsLine(all[i]) && (i < |all| - 1 ==> Ended(all[i]))
    {
      if i < |headers| - 1 && body == [] && headers != [] {
        assert headers[..|headers| - 1][i] == headers[i] || AllEnded(headers);
      }
    }
  }

  /** Parsing the scaffold gives the keys and counts of the source, and five more header lines. */
  lemma ScaffoldSummary(text: string, sentinel: string, hint: string)
    requires GoodSentinel(sentinel) && NoBreak(hint)
    ensures var src, tgt := Collect(text), Collect(ScaffoldText(Collect(text), sentinel, hint));
            && Summary(CountsOf, tgt.blocks) == Summary(CountsOf, src.blocks)
            && |tgt.headers| == 5 + |src.headers|
  {
    var p := Collect(text);
    CollectIsShaped(text);
    ScaffoldIsRead(p, sentinel, hint);
    CollectIsReading(CountsOf, ScaffoldText(p, sentinel, hint));
  }

  lemma ScaffoldIsRead(p: Parse, sentinel: string, hint: string)
    requires GoodSentinel(sentinel) && NoBreak(hint) && Invariant(p)
    requires AllEnded(p.headers) || (&& p.headers != [] && AllEnded(p.headers[..|p.headers| - 1])
                                     && forall i :: 0 <= i < |p.blocks| ==> p.blocks[i] == Block(BLANK, []))
    ensures var r := ReadAll(CountsOf, UNREAD, SplitLines(ScaffoldText(p, sentinel, hint)));
            r.entries == Summary(CountsOf, p.blocks) && r.headers == 5 + |p.headers|
  {
    if AllEnded(p.headers) || p.blocks == [] {
      WholeScaffoldIsRead(p.headers, p.blocks, sentinel, hint);
    } else {
      OpenHeaderScaffold(p, sentinel, hint);
    }
  }

  /** A last header without a line break takes the one of the first separator. */
  lemma OpenHeaderScaffold(p: Parse, sentinel: string, hint: string)
    requires GoodSentinel(sentinel) && NoBreak(hint) && Invariant(p) && p.blocks != []
    requires p.headers != [] && !AllEnded(p.headers) && AllEnded(p.headers[..|p.headers| - 1])
    requires forall i :: 0 <= i < |p.blocks| ==> p.blocks[i] == Block(BLANK, [])
    ensures var r := ReadAll(CountsOf, UNREAD, SplitLines(ScaffoldText(p, sentinel, hint)));
            r.entries == Summary(CountsOf, p.blocks) && r.headers == 5 + |p.headers|
  {
    var n := |p.headers| - 1;
    var open, rest := p.headers[n], p.blocks[1..];
    var closed := p.headers[..n] + [open + "\n"];
    assert p.headers == p.headers[..n] + [open];
    LastHeaderIsOpen(p.headers);
    ClosedHeaders(p.headers[..n], open);
    ShiftBreak(Join(HintLines(hint)), p.headers[..n], open, BodyText(rest, sentinel));
    assert BodyText(p.blocks, sentinel) == "\n" + BodyText(rest, sentinel);
    NoRealBlocks(p.blocks);
    NoRealBlocks(rest);
    WholeScaffoldIsRead(closed, rest, sentinel, hint);
  }

  lemma ClosedHeaders(front: seq<string>, open: string)
    requires AllEnded(front) && forall i :: 0 <= i < |front| ==> IsLine(front[i]) && KindOf(front[i]) == CommentLine
    requires IsLine(open) && KindOf(open) == CommentLine && !Ended(open)
    ensures var closed := front + [open + "\n"];
            && AllEnded(closed)
            && forall i :: 0 <= i < |closed| ==> IsLine(closed[i]) && KindOf(closed[i]) == CommentLine
  {
    NewlineIsSilent(open);
    ClosedIsLine(open);
  }

  lemma LastHeaderIsOpen(headers: seq<string>)
    requires headers != [] && !AllEnded(headers) && AllEnded(headers[..|headers| - 1])
    ensures !Ended(headers[|headers| - 1])
  {
    assert forall i :: 0 <= i < |headers| - 1 ==> headers[i] == headers[..|headers| - 1][i];
  }

  lemma ClosedIsLine(open: string)
    requires IsLine(open) && !Ended(open)
    ensures IsLine(open + "\n") && Ended(open + "\n")
  {
    assert forall i :: 0 <= i < |open| - 1 ==> open[..|open| - 1][i] == open[i];
    assert (open + "\n")[..|open|] == open;
  }

  lemma ShiftBreak(hints: string, front: seq<string>, open: string, rest: string)
    ensures hints + Join(front + [open + "\n"]) + rest == hints + Join(front + [open]) + ("\n" + rest)
  {
    JoinAppend(front, [open + "\n"]);
    JoinAppend(front, [open]);
    JoinsOne(open + "\n");
    JoinsOne(open);
    assert hints + (Join(front) + (open + "\n")) + rest == hints + (Join(front) + open) + ("\n" + rest);
  }

  lemma {:induction false} NoRealBlocks(blocks: seq<Block>)
    requires forall i :: 0 <= i < |blocks| ==> blocks[i] == Block(BLANK, [])
    ensures Summary(CountsOf, blocks) == [] && Shaped(blocks)
  {
    if blocks != [] {
      NoRealBlocks(blocks[..|blocks| - 1]);
    }
  }

  // ---------- the gate ----------

  datatype Failure =
    | ByteIdentical
    | KeysMissing(keys: set<string>)
    | KeysAdded(keys: set<string>)
    | PlaceholderDrift(key: string, src: nat, scaffold: nat)
    | SelectDrift(key: string, src: nat, scaffold: nat)
    | AttributeDrift(key: string, src: nat, scaffold: nat)

  function RealKeys(blocks: seq<Block>): set<string> {
    set b | b in blocks && b.key != BLANK :: b.key
  }

  /** next((lines for k, lines in blocks if k == key), []) */
  function FirstLines(blocks: seq<Block>, key: string): seq<string> {
    if blocks == [] then [] else if blocks[0].key == key then blocks[0].lines else FirstLines(blocks[1..], key)
  }

  function DriftOf(key: string, s: Counts, t: Counts): seq<Failure> {
    (if s.placeholders != t.placeholders then [PlaceholderDrift(key, s.placeholders, t.placeholders)] else [])
    + (if s.selects != t.selects then [SelectDrift(key, s.selects, t.selects)] else [])
    + (if s.attributes != t.attributes then [AttributeDrift(key, s.attributes, t.attributes)] else [])
  }

  function Drifts(src: seq<Block>, tgt: seq<Block>): seq<Failure> {
    if src == [] then []
    else
      var b := src[0];
      (if b.key == BLANK then [] else DriftOf(b.key, Sum(CountsOf, b.lines), Sum(CountsOf, FirstLines(tgt, b.key))))
      + Drifts(src[1..], tgt)
  }

  function KeyFailures(src: set<string>, tgt: set<string>): seq<Failure> {
    (if src - tgt != {} then [KeysMissing(src - tgt)] else []) + (if tgt - src != {} then [KeysAdded(tgt - src)] else [])
  }

  function Failures(source: string, scaffold: string): seq<Failure> {
    var src, tgt := Collect(source).blocks, Collect(scaffold).blocks;
    (if scaffold == source then [ByteIdentical] else []) + KeyFailures(RealKeys(src), RealKeys(tgt)) + Drifts(src, tgt)
  }

  method ValidateScaffold(source: string, scaffold: string) returns (failures: seq<Failure>)
    ensures failures == Failures(source, scaffold)
  {
    var _, src := CollectBlocks(source);
    var _, tgt := CollectBlocks(scaffold);
    failures := if scaffold == source then [ByteIdentical] else [];
    var keys := CompareKeys(RealKeys(src), RealKeys(tgt));
    var drifts := CompareCounts(src, tgt);
    failures := failures + keys + drifts;
  }

  method CompareKeys(src: set<string>, tgt: set<string>) returns (failures: seq<Failure>)
    ensures failures == KeyFailures(src, tgt)
  {
    failures := [];
    if src != tgt {
      if src - tgt != {} {
        failures := failures + [KeysMissing(src - tgt)];
      }
      if tgt - src != {} {
        failures := failures + [KeysAdded(tgt - src)];
      }
    }
  }

  method CompareCounts(src: seq<Block>, tgt: seq<Block>) returns (failures: seq<Failure>)
    ensures failures == Drifts(src, tgt)
  {
    failures := [];
    for i := 0 to |src|
      invariant failures + Drifts(src[i..], tgt) == Drifts(src, tgt)
    {
      var b := src[i];
      DriftsStep(src, i, tgt);
      if b.key == BLANK {
        continue;
      }
      var s := LineCounts(b.lines);
      var t := LineCounts(FirstLines(tgt, b.key));
      var drift := DriftOf(b.key, s, t);
      Regroup(failures, drift, Drifts(src[i + 1..], tgt));
      failures := failures + drift;
    }
    assert src[|src|..] == [];
  }

  lemma DriftsStep(src: seq<Block>, i: nat, tgt: seq<Block>)
    requires i < |src|
    ensures var b, rest := src[i], Drifts(src[i + 1..], tgt);
            Drifts(src[i..], tgt) ==
            if b.key == BLANK then rest
            else DriftOf(b.key, Sum(CountsOf, b.lines), Sum(CountsOf, FirstLines(tgt, b.key))) + rest
  {
    assert src[i..][0] == src[i] && src[i..][1..] == src[i + 1..];
    assert [] + Drifts(src[i + 1..], tgt) == Drifts(src[i + 1..], tgt);
  }

  /** The three sums over the lines of a block; attributes are matched without their indentation. */
  method LineCounts(lines: seq<string>) returns (c: Counts)
    ensures c == Sum(CountsOf, lines)
  {
    c := Counts(0, 0, 0);
    for i := 0 to |lines|
      invariant c == Sum(CountsOf, lines[..i])
    {
      var l := lines[i];
      IndentIsSilent(l);
      OneLine(CountsOf, lines[..i], l);
      assert lines[..i + 1] == lines[..i] + [l];
      c := Plus(c, Counts(Matches(Placeholder, l), Matches(Select, l), if IsAttr(LStrip(l)) then 1 else 0));
    }
    assert lines[..|lines|] == lines;
  }

  // ---------- what is reported, for any two texts ----------

  ghost predicate Defined(blocks: seq<Block>, key: string) {
    key != BLANK && exists i :: 0 <= i < |blocks| && blocks[i].key == key
  }

  /** `lines` are those of the first block of the key, or none. */
  ghost predicate FirstOf(blocks: seq<Block>, key: string, lines: seq<string>) {
    || (lines == [] && forall i :: 0 <= i < |blocks| ==> blocks[i].key != key)
    || exists i :: 0 <= i < |blocks| && blocks[i] == Block(key, lines) && forall j :: 0 <= j < i ==> blocks[j].key != key
  }

  lemma {:induction false} FirstLinesAre(blocks: seq<Block>, key: string)
    ensures FirstOf(blocks, key, FirstLines(blocks, key))
  {
    if blocks != [] && blocks[0].key != key {
      var rest := blocks[1..];
      FirstLinesAre(rest, key);
      assert forall i :: 0 <= i < |rest| ==> rest[i] == blocks[i + 1];
      if i :| 0 <= i < |rest| && rest[i] == Block(key, FirstLines(rest, key)) && forall j :: 0 <= j < i ==> rest[j].key != key {
        assert blocks[i + 1] == Block(key, FirstLines(rest, key));
        assert forall j :: 0 < j < i + 1 ==> blocks[j] == rest[j - 1];
      }
    } else if blocks != [] {
      assert blocks[0] == Block(key, blocks[0].lines);
    }
  }

  /** A block of the source whose lines hold `a` of what is counted, where those of the first block of its key in the
      scaffold hold `b`. */
  ghost predicate Drifted(src: seq<Block>, tgt: seq<Block>, count: Counts -> nat, key: string, a: nat, b: nat) {
    exists i, lines :: 0 <= i < |src| && src[i].key == key != BLANK && FirstOf(tgt, key, lines)
                       && a == count(Sum(CountsOf, src[i].lines)) && b == count(Sum(CountsOf, lines)) && a != b
  }

  function Placeholders(c: Counts): nat { c.placeholders }

  function Selects(c: Counts): nat { c.selects }

  function AttributesIn(c: Counts): nat { c.attributes }

  ghost predicate Reported(f: Failure, source: string, scaffold: string) {
    var src, tgt := Collect(source).blocks, Collect(scaffold).blocks;
    match f
    case ByteIdentical => scaffold == source
    case _ => KeysReportedIn(f, src, tgt) || DriftReported(f, src, tgt)
  }

  ghost predicate DriftReported(f: Failure, src: seq<Block>, tgt: seq<Block>) {
    match f
    case PlaceholderDrift(key, a, b) => Drifted(src, tgt, Placeholders, key, a, b)
    case SelectDrift(key, a, b) => Drifted(src, tgt, Selects, key, a, b)
    case AttributeDrift(key, a, b) => Drifted(src, tgt, AttributesIn, key, a, b)
    case _ => false
  }

  lemma FirstIsOne(blocks: seq<Block>, key: string, lines: seq<string>)
    ensures FirstOf(blocks, key, lines) <==> lines == FirstLines(blocks, key)
  {
    FirstLinesAre(blocks, key);
  }

  lemma DefinedIs(blocks: seq<Block>, key: string)
    ensures key in RealKeys(blocks) <==> Defined(blocks, key)
  {
    if Defined(blocks, key) {
      var i :| 0 <= i < |blocks| && blocks[i].key == key;
      assert blocks[i] in blocks;
    }
  }

  lemma {:induction false} DriftsAre(src: seq<Block>, tgt: seq<Block>, f: Failure)
    ensures f in Drifts(src, tgt) <==> exists i :: 0 <= i < |src| && DriftsAt(src[i], tgt, f)
  {
    if src != [] {
      var rest := src[1..];
      DriftsAre(rest, tgt, f);
      if i :| 0 <= i < |rest| && DriftsAt(rest[i], tgt, f) {
        assert src[i + 1] == rest[i];
      }
      if i :| 0 <= i < |src| && DriftsAt(src[i], tgt, f) {
        assert i > 0 ==> rest[i - 1] == src[i];
      }
    }
  }

  predicate DriftsAt(b: Block, tgt: seq<Block>, f: Failure) {
    b.key != BLANK && f in DriftOf(b.key, Sum(CountsOf, b.lines), Sum(CountsOf, FirstLines(tgt, b.key)))
  }

  lemma DriftedIs(src: seq<Block>, tgt: seq<Block>, count: Counts -> nat, key: string, a: nat, b: nat)
    ensures Drifted(src, tgt, count, key, a, b) <==>
            exists i :: 0 <= i < |src| && src[i].key == key != BLANK && a == count(Sum(CountsOf, src[i].lines))
                        && b == count(Sum(CountsOf, FirstLines(tgt, key))) && a != b
  {
    FirstLinesAre(tgt, key);
    forall lines
      ensures FirstOf(tgt, key, lines) <==> lines == FirstLines(tgt, key)
    {
      FirstIsOne(tgt, key, lines);
    }
  }

  lemma KeysReported(src: seq<Block>, tgt: seq<Block>, keys: set<string>)
    ensures keys == RealKeys(src) - RealKeys(tgt) <==> forall k :: k in keys <==> Defined(src, k) && !Defined(tgt, k)
  {
    forall k
      ensures (k in RealKeys(src) <==> Defined(src, k)) && (k in RealKeys(tgt) <==> Defined(tgt, k))
    {
      DefinedIs(src, k);
      DefinedIs(tgt, k);
    }
  }

  lemma PlaceholdersReported(src: seq<Block>, tgt: seq<Block>, key: string, a: nat, b: nat)
    ensures PlaceholderDrift(key, a, b) in Drifts(src, tgt) <==> Drifted(src, tgt, Placeholders, key, a, b)
  {
    DriftsAre(src, tgt, PlaceholderDrift(key, a, b));
    DriftedIs(src, tgt, Placeholders, key, a, b);
  }

  lemma SelectsReported(src: seq<Block>, tgt: seq<Block>, key: string, a: nat, b: nat)
    ensures SelectDrift(key, a, b) in Drifts(src, tgt) <==> Drifted(src, tgt, Selects, key, a, b)
  {
    DriftsAre(src, tgt, SelectDrift(key, a, b));
    DriftedIs(src, tgt, Selects, key, a, b);
  }

  lemma AttributesReported(src: seq<Block>, tgt: seq<Block>, key: string, a: nat, b: nat)
    ensures AttributeDrift(key, a, b) in Drifts(src, tgt) <==> Drifted(src, tgt, AttributesIn, key, a, b)
  {
    DriftsAre(src, tgt, AttributeDrift(key, a, b));
    DriftedIs(src, tgt, AttributesIn, key, a, b);
  }

  lemma DriftsReported(src: seq<Block>, tgt: seq<Block>, f: Failure)
    ensures f in Drifts(src, tgt) <==> DriftReported(f, src, tgt)
  {
    match f {
      case PlaceholderDrift(key, a, b) => PlaceholdersReported(src, tgt, key, a, b);
      case SelectDrift(key, a, b) => SelectsReported(src, tgt, key, a, b);
      case AttributeDrift(key, a, b) => AttributesReported(src, tgt, key, a, b);
      case _ => DriftsAre(src, tgt, f);
    }
  }

  ghost predicate KeysReportedIn(f: Failure, src: seq<Block>, tgt: seq<Block>) {
    match f
    case KeysMissing(keys) => keys != {} && forall k :: k in keys <==> Defined(src, k) && !Defined(tgt, k)
    case KeysAdded(keys) => keys != {} && forall k :: k in keys <==> Defined(tgt, k) && !Defined(src, k)
    case _ => false
  }

  lemma KeyFailuresAre(src: seq<Block>, tgt: seq<Block>, f: Failure)
    ensures f in KeyFailures(RealKeys(src), RealKeys(tgt)) <==> KeysReportedIn(f, src, tgt)
  {
    match f {
      case KeysMissing(keys) => KeysReported(src, tgt, keys);
      case KeysAdded(keys) => KeysReported(tgt, src, keys);
      case _ =>
    }
  }

  /** The gate reports exactly the failures that there are, whatever the two texts. */
  lemma FailuresAre(source: string, scaffold: string, f: Failure)
    ensures f in Failures(source, scaffold) <==> Reported(f, source, scaffold)
  {
    var src, tgt := Collect(source).blocks, Collect(scaffold).blocks;
    KeyFailuresAre(src, tgt, f);
    DriftsReported(src, tgt, f);
    InThree(if scaffold == source then [ByteIdentical] else [], KeyFailures(RealKeys(src), RealKeys(tgt)), Drifts(src, tgt), f);
  }

  lemma InThree(a: seq<Failure>, b: seq<Failure>, c: seq<Failure>, f: Failure)
    ensures f in a + b + c <==> f in a || f in b || f in c
  {
  }

  // ---------- what the gate sees ----------

  function FirstCounts(entries: seq<Entry>, key: string): Counts {
    if entries == [] then Counts(0, 0, 0)
    else if entries[0].key == key then entries[0].counts
    else FirstCounts(entries[1..], key)
  }

  lemma {:induction false} SummaryCons(b: Block, rest: seq<Block>)
    ensures Summary(CountsOf, [b] + rest) ==
            (if b.key == BLANK then [] else [Entry(b.key, Sum(CountsOf, b.lines))]) + Summary(CountsOf, rest)
    decreases |rest|
  {
    if rest == [] {
      assert [b] + rest == [] + [b];
      SummarySnoc(CountsOf, [], b);
    } else {
      var n := |rest| - 1;
      assert [b] + rest == ([b] + rest[..n]) + [rest[n]] && rest == rest[..n] + [rest[n]];
      SummarySnoc(CountsOf, [b] + rest[..n], rest[n]);
      SummarySnoc(CountsOf, rest[..n], rest[n]);
      SummaryCons(b, rest[..n]);
    }
  }

  lemma {:induction false} FirstLinesCount(blocks: seq<Block>, key: string)
    requires key != BLANK
    ensures Sum(CountsOf, FirstLines(blocks, key)) == FirstCounts(Summary(CountsOf, blocks), key)
    decreases |blocks|
  {
    if blocks != [] {
      var b, rest := blocks[0], blocks[1..];
      assert blocks == [b] + rest;
      SummaryCons(b, rest);
      FirstLinesCount(rest, key);
      var entry, entries := Entry(b.key, Sum(CountsOf, b.lines)), Summary(CountsOf, rest);
      assert ([entry] + entries)[0] == entry && ([entry] + entries)[1..] == entries && [] + entries == entries;
    }
  }

  function EntryKeys(entries: seq<Entry>): set<string> {
    set e | e in entries :: e.key
  }

  lemma {:induction false} RealKeysAreEntries(blocks: seq<Block>)
    ensures RealKeys(blocks) == EntryKeys(Summary(CountsOf, blocks))
    decreases |blocks|
  {
    if blocks != [] {
      var b, rest := blocks[0], blocks[1..];
      assert blocks == [b] + rest;
      SummaryCons(b, rest);
      RealKeysAreEntries(rest);
      var own := if b.key == BLANK then [] else [Entry(b.key, Sum(CountsOf, b.lines))];
      assert EntryKeys(own + Summary(CountsOf, rest)) == EntryKeys(own) + EntryKeys(Summary(CountsOf, rest));
      assert RealKeys([b] + rest) == (if b.key == BLANK then {} else {b.key}) + RealKeys(rest);
    }
  }

  /** Every block has the counts of the first block of its key. */
  ghost predicate AgreesWithFirst(blocks: seq<Block>, all: seq<Block>) {
    forall i :: 0 <= i < |blocks| && IsReal(blocks[i]) ==>
      Sum(CountsOf, blocks[i].lines) == Sum(CountsOf, FirstLines(all, blocks[i].key))
  }

  lemma {:induction false} NoDriftIff(src: seq<Block>, tgt: seq<Block>, all: seq<Block>)
    requires forall key :: key != BLANK ==> Sum(CountsOf, FirstLines(tgt, key)) == Sum(CountsOf, FirstLines(all, key))
    ensures Drifts(src, tgt) == [] <==> AgreesWithFirst(src, all)
    decreases |src|
  {
    if src != [] {
      var b, rest := src[0], src[1..];
      NoDriftIff(rest, tgt, all);
      assert forall i :: 0 <= i < |rest| ==> rest[i] == src[i + 1];
      assert b.key != BLANK ==>
          (DriftOf(b.key, Sum(CountsOf, b.lines), Sum(CountsOf, FirstLines(tgt, b.key))) == [] <==>
           Sum(CountsOf, b.lines) == Sum(CountsOf, FirstLines(all, b.key)));
      if AgreesWithFirst(rest, all) && (b.key != BLANK ==> Sum(CountsOf, b.lines) == Sum(CountsOf, FirstLines(all, b.key))) {
        assert AgreesWithFirst(src, all);
      }
      if AgreesWithFirst(src, all) {
        assert IsReal(src[0]) <==> b.key != BLANK;
        assert AgreesWithFirst(rest, all);
      }
    }
  }

  /** The scaffold of any source passes the gate exactly when the source does not define a key twice,
      apart, with different counts. */
  lemma ScaffoldPassesIff(text: string, sentinel: string, hint: string)
    requires GoodSentinel(sentinel) && NoBreak(hint)
    ensures var src := Collect(text).blocks;
            Failures(text, ScaffoldText(Collect(text), sentinel, hint)) == [] <==> AgreesWithFirst(src, src)
  {
    var src := Collect(text).blocks;
    var scaffold := ScaffoldText(Collect(text), sentinel, hint);
    var tgt := Collect(scaffold).blocks;
    ScaffoldSummary(text, sentinel, hint);
    RealKeysAreEntries(src);
    RealKeysAreEntries(tgt);
    forall key | key != BLANK
      ensures Sum(CountsOf, FirstLines(tgt, key)) == Sum(CountsOf, FirstLines(src, key))
    {
      FirstLinesCount(src, key);
      FirstLinesCount(tgt, key);
    }
    NoDriftIff(src, tgt, src);
  }

  ghost predicate DistinctKeys(blocks: seq<Block>) {
    forall i, j :: 0 <= i < j < |blocks| && IsReal(blocks[i]) && IsReal(blocks[j]) ==> blocks[i].key != blocks[j].key
  }

  lemma {:induction false} OwnLinesAreFirst(blocks: seq<Block>, i: nat)
    requires DistinctKeys(blocks) && i < |blocks| && IsReal(blocks[i])
    ensures FirstLines(blocks, blocks[i].key) == blocks[i].lines
    decreases |blocks|
  {
    if i > 0 {
      assert blocks[1..][i - 1] == blocks[i];
      assert IsReal(blocks[0]) ==> blocks[0].key != blocks[i].key;
      OwnLinesAreFirst(blocks[1..], i - 1);
    }
  }

  /** A source that defines every key once gets a scaffold that passes its own gate. */
  lemma ScaffoldPasses(text: string, sentinel: string, hint: string)
    requires GoodSentinel(sentinel) && NoBreak(hint) && DistinctKeys(Collect(text).blocks)
    ensures Failures(text, ScaffoldText(Collect(text), sentinel, hint)) == []
  {
    var src := Collect(text).blocks;
    forall i | 0 <= i < |src| && IsReal(src[i])
      ensures Sum(CountsOf, src[i].lines) == Sum(CountsOf, FirstLines(src, src[i].key))
    {
      OwnLinesAreFirst(src, i);
    }
    ScaffoldPassesIff(text, sentinel, hint);
  }
}
