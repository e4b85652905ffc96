/**
  What the blocks of `collect_blocks` look like: a real block opens with the
  line that defines its key and holds only lines of that key, and two blocks of
  one key are never neighbours.
 */
module BlockShape {
  import opened PyText
  import opened FtlBlocks

  predicate LineOf(key: string, line: string) {
    IsLine(line) && (match KindOf(line) case BlankLine => false case KeyLine(k) => k == key case _ => true)
  }

  predicate ShapedBlock(b: Block) {
    b.key == BLANK
    || (&& b.lines != [] && KindOf(b.lines[0]) == KeyLine(b.key)
        && forall i :: 0 <= i < |b.lines| ==> LineOf(b.key, b.lines[i]))
  }

  predicate IsReal(b: Block) {
    b.key != BLANK
  }

  /** Between two blocks of one key stands a block of another. */
  ghost predicate Spaced(blocks: seq<Block>) {
    forall j, i :: 0 <= j < i < |blocks| && IsReal(blocks[j]) && IsReal(blocks[i]) && blocks[j].key == blocks[i].key ==>
      exists k :: j < k < i && IsReal(blocks[k])
  }

  ghost predicate Shaped(blocks: seq<Block>) {
    (forall i :: 0 <= i < |blocks| ==> ShapedBlock(blocks[i])) && Spaced(blocks)
  }

  /** What holds between two turns of the parser's loop. */
  ghost predicate Invariant(p: Parse) {
    && Shaped(p.blocks)
    && (forall i :: 0 <= i < |p.headers| ==> IsLine(p.headers[i]) && KindOf(p.headers[i]) == CommentLine)
    && (p.key.None? ==> p.lines == [] && p.attrs == [] && forall i :: 0 <= i < |p.blocks| ==> p.blocks[i] == Block(BLANK, []))
    && (p.key.Some? && p.key.value != BLANK ==>
          && (forall i :: 0 <= i < |p.lines| ==> LineOf(p.key.value, p.lines[i]))
          && (forall i :: 0 <= i < |p.attrs| ==> LineOf(p.key.value, p.attrs[i]))
          && (|| (p.lines != [] && KindOf(p.lines[0]) == KeyLine(p.key.value))
              || (LastReal(p.blocks) >= 0 && p.blocks[LastReal(p.blocks)].key == p.key.value)))
  }

  lemma MergedStaysShaped(blocks: seq<Block>, i: nat, more: seq<string>)
    requires Shaped(blocks) && i < |blocks| && IsReal(blocks[i])
    requires forall k :: 0 <= k < |more| ==> LineOf(blocks[i].key, more[k])
    ensures Shaped(blocks[i := Block(blocks[i].key, blocks[i].lines + more)])
  {
    var merged := blocks[i := Block(blocks[i].key, blocks[i].lines + more)];
    assert ShapedBlock(blocks[i]);
    forall j, n | 0 <= j < n < |merged| && IsReal(merged[j]) && IsReal(merged[n]) && merged[j].key == merged[n].key
      ensures exists k :: j < k < n && IsReal(merged[k])
    {
      assert IsReal(blocks[j]) && IsReal(blocks[n]) && blocks[j].key == blocks[n].key;
      var k :| j < k < n && IsReal(blocks[k]);
      assert IsReal(merged[k]);
    }
  }

  lemma AppendedStaysShaped(blocks: seq<Block>, b: Block)
    requires Shaped(blocks) && ShapedBlock(b)
    requires IsReal(b) && LastReal(blocks) >= 0 ==> blocks[LastReal(blocks)].key != b.key
    ensures Shaped(blocks + [b])
  {
    var all := blocks + [b];
    forall j, n | 0 <= j < n < |all| && IsReal(all[j]) && IsReal(all[n]) && all[j].key == all[n].key
      ensures exists k :: j < k < n && IsReal(all[k])
    {
      if n < |blocks| {
        var k :| j < k < n && IsReal(blocks[k]);
        assert IsReal(all[k]);
      } else {
        var last := LastReal(blocks);
        assert IsReal(blocks[j]) && last >= j;
        assert IsReal(all[last]) && last != j;
      }
    }
  }

  lemma FlushKeeps(p: Parse)
    requires Invariant(p)
    ensures Invariant(Flush(p))
    ensures p.key.Some? && p.key.value != BLANK ==>
              var i := LastReal(Flush(p).blocks); i >= 0 && Flush(p).blocks[i].key == p.key.value
  {
    if p.key.Some? && (p.lines != [] || p.attrs != []) {
      var key, more, i := p.key.value, p.lines + p.attrs, LastReal(p.blocks);
      if key == BLANK {
        AppendedStaysShaped(p.blocks, Block(key, more));
      } else if i >= 0 && p.blocks[i].key == key {
        MergedStaysShaped(p.blocks, i, more);
        LastRealIs(p.blocks[i := Block(key, p.blocks[i].lines + more)], i);
      } else {
        assert more[0] == p.lines[0];
        AppendedStaysShaped(p.blocks, Block(key, more));
      }
    }
  }

  lemma LastRealIs(blocks: seq<Block>, i: nat)
    requires i < |blocks| && blocks[i].key != BLANK && forall j :: i < j < |blocks| ==> blocks[j].key == BLANK
    ensures LastReal(blocks) == i
    decreases |blocks|
  {
    if i < |blocks| - 1 {
      LastRealIs(blocks[..|blocks| - 1], i);
    }
  }

  lemma StepKeeps(p: Parse, raw: string)
    requires Invariant(p) && IsLine(raw)
    ensures Invariant(Step(p, raw))
  {
    match KindOf(raw) {
      case BlankLine => BlankKeeps(p, raw);
      case CommentLine =>
      case AttrLine =>
      case OtherLine =>
      case KeyLine(k) => FlushKeeps(p);
    }
  }

  lemma BlankKeeps(p: Parse, raw: string)
    requires Invariant(p) && IsLine(raw) && KindOf(raw).BlankLine?
    ensures Invariant(Step(p, raw))
  {
    FlushKeeps(p);
    SeparatorKeeps(Flush(p));
  }

  lemma SeparatorKeeps(q: Parse)
    requires Invariant(q)
    ensures Invariant(q.(blocks := q.blocks + [Block(BLANK, [])]))
  {
    var all, i := q.blocks + [Block(BLANK, [])], LastReal(q.blocks);
    AppendedStaysShaped(q.blocks, Block(BLANK, []));
    if i >= 0 {
      LastRealIs(all, i);
      assert all[i] == q.blocks[i];
    }
  }

  lemma {:induction false} StepsKeep(p: Parse, raws: seq<string>)
    requires Invariant(p) && forall i :: 0 <= i < |raws| ==> IsLine(raws[i])
    ensures Invariant(Steps(p, raws))
    decreases |raws|
  {
    if raws != [] {
      StepKeeps(p, raws[0]);
      StepsKeep(Step(p, raws[0]), raws[1..]);
    }
  }

  predicate AllEnded(lines: seq<string>) {
    forall i :: 0 <= i < |lines| ==> Ended(lines[i])
  }

  /** A header line without a line break is the last line of its text, so no key follows it. */
  lemma {:induction false} OpenHeaderIsLast(p: Parse, raws: seq<string>)
    requires AreLines(raws) && AllEnded(p.headers)
    ensures var q := Steps(p, raws);
            AllEnded(q.headers) || (q.key.None? && q.headers != [] && AllEnded(q.headers[..|q.headers| - 1]))
    decreases |raws|
  {
    if raws != [] {
      var q := Step(p, raws[0]);
      if |raws| == 1 {
        assert raws[1..] == [];
        if !AllEnded(q.headers) {
          assert q.headers[..|q.headers| - 1] == p.headers;
        }
      } else {
        assert forall i :: 0 <= i < |raws[1..]| ==> raws[1..][i] == raws[i + 1];
        OpenHeaderIsLast(q, raws[1..]);
      }
    }
  }

  lemma CollectIsShaped(text: string)
    ensures var p := Collect(text);
            && Invariant(p) && p.headers == Steps(START, SplitLines(text)).headers
            && (AllEnded(p.headers)
                || (&& p.headers != [] && AllEnded(p.headers[..|p.headers| - 1])
                    && forall i :: 0 <= i < |p.blocks| ==> p.blocks[i] == Block(BLANK, [])))
  {
    SplitIsLines(text);
    StepsKeep(START, SplitLines(text));
    OpenHeaderIsLast(START, SplitLines(text));
    FlushKeeps(Steps(START, SplitLines(text)));
  }
}
