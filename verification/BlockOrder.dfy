/**
  Where the lines of a Fluent source end up in the result of `collect_blocks`:
  none is lost, headers and blocks stand in the order of the text, and within a
  run of lines the attributes go behind the others.
 */
module BlockOrder {
  import opened Sequences
  import opened PyText
  import opened FtlBlocks
  import opened BlockShape

  // ---------- headers ----------

  /** The comments before the first key. */
  function LeadingComments(raws: seq<string>): seq<string> {
    if raws == [] then []
    else
      match KindOf(raws[0])
      case KeyLine(_) => []
      case CommentLine => [raws[0]] + LeadingComments(raws[1..])
      case _ => LeadingComments(raws[1..])
  }

  lemma {:induction false} HeadersGrow(p: Parse, raws: seq<string>)
    ensures Steps(p, raws).headers == p.headers + if p.key.Some? then [] else LeadingComments(raws)
    decreases |raws|
  {
    if raws != [] {
      HeadersGrow(Step(p, raws[0]), raws[1..]);
      assert Flush(p).headers == p.headers && Flush(p).key == p.key;
    }
  }

  lemma HeadersAre(text: string)
    ensures Collect(text).headers == LeadingComments(SplitLines(text))
  {
    HeadersGrow(START, SplitLines(text));
  }

  // ---------- separators ----------

  const SEPARATOR := Block(BLANK, [])

  function BlankLines(raws: seq<string>): nat {
    if raws == [] then 0 else (if IsBlank(raws[0]) then 1 else 0) + BlankLines(raws[1..])
  }

  lemma FlushKeepsSeparators(p: Parse)
    ensures multiset(Flush(p).blocks)[SEPARATOR] == multiset(p.blocks)[SEPARATOR]
  {
    if p.key.Some? && p.lines + p.attrs != [] {
      var blocks, more := p.blocks, p.lines + p.attrs;
      var i := LastReal(blocks);
      if i >= 0 && blocks[i].key == p.key.value {
        assert multiset(blocks[i := Block(p.key.value, blocks[i].lines + more)])[SEPARATOR] == multiset(blocks)[SEPARATOR];
      } else {
        assert multiset(blocks + [Block(p.key.value, more)])[SEPARATOR] == multiset(blocks)[SEPARATOR];
      }
    }
  }

  lemma StepAddsSeparator(p: Parse, raw: string)
    ensures multiset(Step(p, raw).blocks)[SEPARATOR] == multiset(p.blocks)[SEPARATOR] + if IsBlank(raw) then 1 else 0
  {
    FlushKeepsSeparators(p);
    var blocks := Flush(p).blocks;
    assert multiset(blocks + [SEPARATOR])[SEPARATOR] == multiset(blocks)[SEPARATOR] + 1;
  }

  lemma {:induction false} SeparatorsGrow(p: Parse, raws: seq<string>)
    ensures multiset(Steps(p, raws).blocks)[SEPARATOR] == multiset(p.blocks)[SEPARATOR] + BlankLines(raws)
    decreases |raws|
  {
    if raws != [] {
      StepAddsSeparator(p, raws[0]);
      SeparatorsGrow(Step(p, raws[0]), raws[1..]);
    }
  }

  /** One separator for each blank line. */
  lemma SeparatorsAre(text: string)
    ensures multiset(Collect(text).blocks)[SEPARATOR] == BlankLines(SplitLines(text))
  {
    SeparatorsGrow(START, SplitLines(text));
    FlushKeepsSeparators(Steps(START, SplitLines(text)));
  }

  // ---------- lines ----------

  function RealLines(blocks: seq<Block>): seq<string> {
    if blocks == [] then []
    else
      var last := blocks[|blocks| - 1];
      RealLines(blocks[..|blocks| - 1]) + if IsReal(last) then last.lines else []
  }

  lemma RealLinesSnoc(blocks: seq<Block>, b: Block)
    ensures RealLines(blocks + [b]) == RealLines(blocks) + if IsReal(b) then b.lines else []
  {
    assert (blocks + [b])[..|blocks|] == blocks;
  }

  lemma {:induction false} RealLinesExtend(blocks: seq<Block>, more: seq<string>)
    requires LastReal(blocks) >= 0
    ensures var i := LastReal(blocks);
            RealLines(blocks[i := Block(blocks[i].key, blocks[i].lines + more)]) == RealLines(blocks) + more
    decreases |blocks|
  {
    var i, n := LastReal(blocks), |blocks| - 1;
    var b := Block(blocks[i].key, blocks[i].lines + more);
    SplitLast(blocks, i, b);
    if i == n {
      RealLinesSnoc(blocks[..n], b);
      assert RealLines(blocks[..n]) + (blocks[n].lines + more) == RealLines(blocks[..n]) + blocks[n].lines + more;
    } else {
      RealLinesExtend(blocks[..n], more);
      RealLinesSnoc(blocks[..n][i := b], blocks[n]);
    }
  }

  lemma FlushAddsLines(p: Parse)
    ensures RealLines(Flush(p).blocks) == RealLines(p.blocks) + if Owned(p.key) then p.lines + p.attrs else []
  {
    if p.key.Some? {
      var i := LastReal(p.blocks);
      if p.lines == [] && p.attrs == [] {
        assert RealLines(p.blocks) + [] == RealLines(p.blocks);
      } else if i >= 0 && p.blocks[i].key == p.key.value {
        RealLinesExtend(p.blocks, p.lines + p.attrs);
      } else {
        RealLinesSnoc(p.blocks, Block(p.key.value, p.lines + p.attrs));
      }
    }
  }

  predicate Owned(key: Option<string>) {
    key.Some? && key.value != BLANK
  }

  predicate Ends(raw: string) {
    KindOf(raw).BlankLine? || KindOf(raw).KeyLine?
  }

  /** Where the next blank line or key is. */
  function RunEnd(raws: seq<string>): (n: nat)
    ensures n <= |raws| && (n < |raws| ==> Ends(raws[n])) && forall i :: 0 <= i < n ==> !Ends(raws[i])
  {
    if raws == [] || Ends(raws[0]) then 0 else 1 + RunEnd(raws[1..])
  }

  function Attributes(raws: seq<string>): seq<string> {
    if raws == [] then [] else (if KindOf(raws[0]).AttrLine? then [raws[0]] else []) + Attributes(raws[1..])
  }

  function Others(raws: seq<string>): seq<string> {
    if raws == [] then [] else (if KindOf(raws[0]).AttrLine? then [] else [raws[0]]) + Others(raws[1..])
  }

  /** The lines in the order of the text, in runs that end at blank lines and keys: first the key, if the run has one,
      then the other lines and then the attributes.  Lines before the first key, and those of a key that is
      named like the separator, are not among them. */
  function Arranged(owner: Option<string>, head: seq<string>, raws: seq<string>): seq<string>
    decreases |raws|, 1
  {
    var run := raws[..RunEnd(raws)];
    (if Owned(owner) then head + Others(run) + Attributes(run) else []) + NextRuns(owner, raws)
  }

  function NextRuns(owner: Option<string>, raws: seq<string>): seq<string>
    decreases |raws|, 0
  {
    var n := RunEnd(raws);
    if n == |raws| then []
    else
      match KindOf(raws[n])
      case KeyLine(k) => Arranged(Some(k), [raws[n]], raws[n + 1..])
      case _ => Arranged(owner, [], raws[n + 1..])
  }

  function Pending(p: Parse, raws: seq<string>): seq<string> {
    var run := raws[..RunEnd(raws)];
    if Owned(p.key) then p.lines + Others(run) + (p.attrs + Attributes(run)) else []
  }

  lemma RunGrows(raws: seq<string>)
    requires raws != [] && !Ends(raws[0])
    ensures var run, rest := raws[..RunEnd(raws)], raws[1..][..RunEnd(raws[1..])];
            && Others(run) == (if KindOf(raws[0]).AttrLine? then [] else [raws[0]]) + Others(rest)
            && Attributes(run) == (if KindOf(raws[0]).AttrLine? then [raws[0]] else []) + Attributes(rest)
  {
    var n := RunEnd(raws[1..]);
    assert raws[..n + 1][1..] == raws[1..][..n] && raws[..n + 1][0] == raws[0];
  }

  lemma NextRunsStay(owner: Option<string>, raws: seq<string>)
    requires raws != [] && !Ends(raws[0])
    ensures NextRuns(owner, raws) == NextRuns(owner, raws[1..])
  {
    var n := RunEnd(raws[1..]);
    assert n < |raws[1..]| ==> raws[1..][n + 1..] == raws[n + 2..];
  }

  lemma PendingMoves(p: Parse, raws: seq<string>)
    requires raws != [] && !Ends(raws[0])
    ensures Pending(Step(p, raws[0]), raws[1..]) == Pending(p, raws)
  {
    RunGrows(raws);
    var rest := raws[1..][..RunEnd(raws[1..])];
    assert p.lines + ([raws[0]] + Others(rest)) == p.lines + [raws[0]] + Others(rest);
    assert p.attrs + ([raws[0]] + Attributes(rest)) == p.attrs + [raws[0]] + Attributes(rest);
    assert [] + Others(rest) == Others(rest) && [] + Attributes(rest) == Attributes(rest);
  }

  lemma Associates(a: seq<string>, b: seq<string>, c: seq<string>)
    ensures a + b + c == a + (b + c)
  {
  }

  /** The lines that the rest of a text adds to the blocks. */
  function Coming(p: Parse, raws: seq<string>): seq<string> {
    Pending(p, raws) + NextRuns(p.key, raws)
  }

  lemma {:induction false} LinesGrow(p: Parse, raws: seq<string>)
    requires p.key.None? ==> p.lines == [] && p.attrs == []
    ensures RealLines(Flush(Steps(p, raws)).blocks) == RealLines(p.blocks) + Coming(p, raws)
    decreases |raws|
  {
    if raws == [] {
      NothingComes(p);
    } else {
      LinesGrow(Step(p, raws[0]), raws[1..]);
      if Ends(raws[0]) { RunEnds(p, raws); } else { RunGoesOn(p, raws); }
    }
  }

  lemma NothingComes(p: Parse)
    ensures RealLines(Flush(p).blocks) == RealLines(p.blocks) + Coming(p, [])
  {
    FlushAddsLines(p);
    NothingInBetween(p, []);
  }

  lemma NothingInBetween(p: Parse, raws: seq<string>)
    requires raws == [] || Ends(raws[0])
    ensures Pending(p, raws) == if Owned(p.key) then p.lines + p.attrs else []
  {
    assert raws[..0] == [];
  }

  lemma RunGoesOn(p: Parse, raws: seq<string>)
    requires raws != [] && !Ends(raws[0])
    ensures var q := Step(p, raws[0]); RealLines(q.blocks) + Coming(q, raws[1..]) == RealLines(p.blocks) + Coming(p, raws)
  {
    PendingMoves(p, raws);
    NextRunsStay(p.key, raws);
    assert Step(p, raws[0]).blocks == p.blocks && Step(p, raws[0]).key == p.key;
  }

  lemma RunEnds(p: Parse, raws: seq<string>)
    requires raws != [] && Ends(raws[0]) && (p.key.None? ==> p.lines == [] && p.attrs == [])
    ensures var q := Step(p, raws[0]); RealLines(q.blocks) + Coming(q, raws[1..]) == RealLines(p.blocks) + Coming(p, raws)
  {
    StepFlushes(p, raws[0]);
    NextStarts(p, raws);
    NothingInBetween(p, raws);
    Associates(RealLines(p.blocks), Pending(p, raws), NextRuns(p.key, raws));
  }

  /** At a blank line or a key the pending lines are flushed. */
  lemma StepFlushes(p: Parse, raw: string)
    requires Ends(raw)
    ensures RealLines(Step(p, raw).blocks) == RealLines(p.blocks) + if Owned(p.key) then p.lines + p.attrs else []
  {
    FlushAddsLines(p);
    if KindOf(raw).BlankLine? {
      RealLinesSnoc(Flush(p).blocks, SEPARATOR);
      assert RealLines(Flush(p).blocks) + [] == RealLines(Flush(p).blocks);
    }
  }

  lemma NextStarts(p: Parse, raws: seq<string>)
    requires raws != [] && Ends(raws[0]) && (p.key.None? ==> p.lines == [] && p.attrs == [])
    ensures var q := Step(p, raws[0]);
            Coming(q, raws[1..]) == NextRuns(p.key, raws)
  {
    var q, run := Step(p, raws[0]), raws[1..][..RunEnd(raws[1..])];
    assert [] + Attributes(run) == Attributes(run) && [] + Others(run) == Others(run);
    if KindOf(raws[0]).KeyLine? {
      assert q.lines == [raws[0]] && q.attrs == [];
    } else {
      assert q.key == p.key && q.lines == [] && q.attrs == [];
    }
  }

  /** Every line behind the first key is kept, in this order. */
  lemma LinesAreArranged(text: string)
    ensures RealLines(Collect(text).blocks) == Arranged(None, [], SplitLines(text))
  {
    LinesGrow(START, SplitLines(text));
  }

  // ---------- blocks ----------

  predicate StandsAt(b: Block, raw: string) {
    (b == SEPARATOR ==> IsBlank(raw)) && (IsReal(b) ==> b.lines != [] && b.lines[0] == raw)
  }

  /** A separator stands for the blank line at its place, a real block opens with the line there. */
  ghost predicate Placed(blocks: seq<Block>, raws: seq<string>, places: seq<nat>, bound: nat) {
    && |places| == |blocks| && Increasing(places)
    && forall i :: 0 <= i < |places| ==> places[i] < bound && places[i] < |raws| && StandsAt(blocks[i], raws[places[i]])
  }

  /** The pending lines, if there are any, begin at `start`, behind all blocks. */
  ghost predicate Standing(p: Parse, raws: seq<string>, n: nat, places: seq<nat>, start: nat) {
    && Invariant(p) && start <= n <= |raws| && Placed(p.blocks, raws, places, start)
    && (p.lines != [] || p.attrs != [] ==> start < n)
    && (p.lines != [] && KindOf(p.lines[0]).KeyLine? ==> start < |raws| && raws[start] == p.lines[0])
  }

  lemma PlacedSnoc(blocks: seq<Block>, raws: seq<string>, places: seq<nat>, b: Block, at: nat)
    requires Placed(blocks, raws, places, at) && at < |raws| && StandsAt(b, raws[at])
    ensures Placed(blocks + [b], raws, places + [at], at + 1)
  {
  }

  lemma PlacedExtends(blocks: seq<Block>, raws: seq<string>, places: seq<nat>, i: nat, more: seq<string>, bound: nat)
    requires Placed(blocks, raws, places, bound) && i < |blocks| && IsReal(blocks[i])
    ensures Placed(blocks[i := Block(blocks[i].key, blocks[i].lines + more)], raws, places, bound)
  {
  }

  /** What is pending opens its block, or goes to the last one. */
  lemma FlushPlaces(p: Parse, raws: seq<string>, n: nat, places: seq<nat>, start: nat) returns (after: seq<nat>)
    requires Standing(p, raws, n, places, start)
    ensures Placed(Flush(p).blocks, raws, after, n)
  {
    after := places;
    if p.key.Some? && p.lines + p.attrs != [] {
      var i := LastReal(p.blocks);
      if i >= 0 && p.blocks[i].key == p.key.value {
        PlacedExtends(p.blocks, raws, places, i, p.lines + p.attrs, n);
      } else {
        assert IsReal(Block(p.key.value, [])) ==> p.lines != [] && KindOf(p.lines[0]).KeyLine?;
        PlacedSnoc(p.blocks, raws, places, Block(p.key.value, p.lines + p.attrs), start);
        after := places + [start];
      }
    }
  }

  lemma StepPlaces(p: Parse, raws: seq<string>, n: nat, places: seq<nat>, start: nat) returns (after: seq<nat>, next: nat)
    requires n < |raws| && IsLine(raws[n]) && Standing(p, raws, n, places, start)
    ensures Standing(Step(p, raws[n]), raws, n + 1, after, next)
  {
    StepKeeps(p, raws[n]);
    if Ends(raws[n]) {
      after, next := RunPlaces(p, raws, n, places, start);
    } else {
      after := places;
      next := if p.lines == [] && p.attrs == [] then n else start;
    }
  }

  lemma RunPlaces(p: Parse, raws: seq<string>, n: nat, places: seq<nat>, start: nat) returns (after: seq<nat>, next: nat)
    requires n < |raws| && Ends(raws[n]) && Standing(p, raws, n, places, start) && Invariant(Step(p, raws[n]))
    ensures Standing(Step(p, raws[n]), raws, n + 1, after, next)
  {
    after := FlushPlaces(p, raws, n, places, start);
    next := n;
    if KindOf(raws[n]).BlankLine? {
      PlacedSnoc(Flush(p).blocks, raws, after, SEPARATOR, n);
      after, next := after + [n], n + 1;
      var q := Step(p, raws[n]);
      assert q.lines == [] && q.attrs == [];
    }
  }

  lemma {:induction false} StepsPlace(p: Parse, raws: seq<string>, n: nat, places: seq<nat>, start: nat) returns (after: seq<nat>)
    requires n <= |raws| && AreLines(raws) && Standing(p, raws, n, places, start)
    ensures Placed(Flush(Steps(p, raws[n..])).blocks, raws, after, |raws|)
    decreases |raws| - n
  {
    if n == |raws| {
      assert raws[n..] == [];
      after := FlushPlaces(p, raws, n, places, start);
    } else {
      assert raws[n..][0] == raws[n] && raws[n..][1..] == raws[n + 1..];
      var more, next := StepPlaces(p, raws, n, places, start);
      after := StepsPlace(Step(p, raws[n]), raws, n + 1, more, next);
    }
  }

  /** Blocks and separators stand in the order of their first lines and of the blank lines. */
  lemma BlocksStandInOrder(text: string) returns (places: seq<nat>)
    ensures Placed(Collect(text).blocks, SplitLines(text), places, |SplitLines(text)|)
  {
    SplitIsLines(text);
    var raws := SplitLines(text);
    assert raws[0..] == raws;
    places := StepsPlace(START, raws, 0, [], 0);
  }
}
