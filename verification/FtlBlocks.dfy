/**
  `collect_blocks` of scripts/translate-stub.py, and what its result amounts to
  for the validator: for each key in order, how many placeholders, selects and
  attributes its lines hold.
 */
module FtlBlocks {
  import opened PyText
  import opened FtlPatterns

  datatype Kind = BlankLine | CommentLine | AttrLine | KeyLine(key: string) | OtherLine

  /** The branch of the parser's loop that a line takes; an attribute outside any key is an other line. */
  function KindOf(raw: string): Kind {
    if IsBlank(raw) then BlankLine
    else if IsComment(raw) then CommentLine
    else if IsAttr(raw) then AttrLine
    else if Key(raw).Some? then KeyLine(Key(raw).value)
    else OtherLine
  }

  const BLANK := "__blank__"

  datatype Block = Block(key: string, lines: seq<string>)

  datatype Parse = Parse(headers: seq<string>, blocks: seq<Block>, key: Option<string>,
                         lines: seq<string>, attrs: seq<string>)

  /** The last block that is not a separator. */
  function LastReal(blocks: seq<Block>): (i: int)
    ensures -1 <= i < |blocks|
    ensures i >= 0 ==> blocks[i].key != BLANK
    ensures forall j :: i < j < |blocks| ==> blocks[j].key == BLANK
  {
    if blocks == [] then -1
    else if blocks[|blocks| - 1].key != BLANK then |blocks| - 1
    else
      var i := LastReal(blocks[..|blocks| - 1]);
      assert forall j :: i < j < |blocks| - 1 ==> blocks[..|blocks| - 1][j] == blocks[j];
      i
  }

  function AddLines(blocks: seq<Block>, key: string, more: seq<string>): seq<Block> {
    var i := LastReal(blocks);
    if i >= 0 && blocks[i].key == key then blocks[i := Block(key, blocks[i].lines + more)]
    else blocks + [Block(key, more)]
  }

  /** `flush_pending` */
  function Flush(p: Parse): Parse {
    if p.key.None? || (p.lines == [] && p.attrs == []) then p
    else p.(blocks := AddLines(p.blocks, p.key.value, p.lines + p.attrs), lines := [], attrs := [])
  }

  function Step(p: Parse, raw: string): Parse {
    match KindOf(raw)
    case BlankLine => var q := Flush(p); q.(blocks := q.blocks + [Block(BLANK, [])])
    case CommentLine =>
      if p.key.None? then p.(headers := p.headers + [raw]) else p.(lines := p.lines + [raw])
    case AttrLine => if p.key.Some? then p.(attrs := p.attrs + [raw]) else p
    case KeyLine(k) => Flush(p).(key := Some(k), lines := [raw], attrs := [])
    case OtherLine => if p.key.Some? then p.(lines := p.lines + [raw]) else p
  }

  function Steps(p: Parse, raws: seq<string>): Parse
    decreases |raws|
  {
    if raws == [] then p else Steps(Step(p, raws[0]), raws[1..])
  }

  const START := Parse([], [], None, [], [])

  /** The parse of a whole text. */
  function Collect(text: string): Parse {
    Flush(Steps(START, SplitLines(text)))
  }

  method CollectBlocks(text: string) returns (headers: seq<string>, blocks: seq<Block>)
    ensures headers == Collect(text).headers && blocks == Collect(text).blocks
  {
    var raws := SplitLines(text);
    var p := START;
    for i := 0 to |raws|
      invariant Steps(p, raws[i..]) == Steps(START, raws)
    {
      var raw := raws[i];
      assert raws[i..][0] == raw && raws[i..][1..] == raws[i + 1..];
      if IsBlank(raw) {
        p := Flush(p);
        p := p.(blocks := p.blocks + [Block(BLANK, [])]);
        continue;
      }
      if IsComment(raw) {
        if p.key.None? {
          p := p.(headers := p.headers + [raw]);
        } else {
          p := p.(lines := p.lines + [raw]);
        }
        continue;
      }
      if IsAttr(raw) && p.key.Some? {
        p := p.(attrs := p.attrs + [raw]);
        continue;
      }
      AttrIsNoKey(raw);
      var k := Key(raw);
      if k.Some? {
        p := Flush(p).(key := k, lines := [raw], attrs := []);
        continue;
      }
      if p.key.Some? {
        p := p.(lines := p.lines + [raw]);
      }
    }
    assert raws[|raws|..] == [];
    p := Flush(p);
    headers, blocks := p.headers, p.blocks;
  }

  lemma AttrIsNoKey(raw: string)
    ensures IsAttr(raw) ==> Key(raw).None?
  {
  }

  // ---------- the summary ----------

  datatype Counts = Counts(placeholders: nat, selects: nat, attributes: nat)

  function Plus(a: Counts, b: Counts): Counts {
    Counts(a.placeholders + b.placeholders, a.selects + b.selects, a.attributes + b.attributes)
  }

  function CountsOf(raw: string): Counts {
    Counts(Matches(Placeholder, raw), Matches(Select, raw), if IsAttr(raw) then 1 else 0)
  }

  /** What is added up per line; the facts below hold for any such measure. */
  type Measure = string -> Counts

  function Sum(m: Measure, lines: seq<string>): Counts {
    if lines == [] then Counts(0, 0, 0) else Plus(m(lines[0]), Sum(m, lines[1..]))
  }

  lemma {:induction false} SumJoins(m: Measure, a: seq<string>, b: seq<string>)
    ensures Sum(m, a + b) == Plus(Sum(m, a), Sum(m, b))
  {
    if a == [] {
      assert a + b == b;
    } else {
      assert (a + b)[1..] == a[1..] + b;
      SumJoins(m, a[1..], b);
    }
  }

  datatype Entry = Entry(key: string, counts: Counts)

  /** One entry per real block. */
  function Summary(m: Measure, blocks: seq<Block>): seq<Entry> {
    if blocks == [] then []
    else
      var last := blocks[|blocks| - 1];
      Summary(m, blocks[..|blocks| - 1]) + if last.key == BLANK then [] else [Entry(last.key, Sum(m, last.lines))]
  }

  function LastKey(entries: seq<Entry>): Option<string> {
    if entries == [] then None else Some(entries[|entries| - 1].key)
  }

  /** Adds to the last entry when it has this key, or opens a new one. */
  function AddTo(entries: seq<Entry>, key: string, c: Counts): seq<Entry> {
    if LastKey(entries) == Some(key) then
      entries[|entries| - 1 := Entry(key, Plus(entries[|entries| - 1].counts, c))]
    else
      entries + [Entry(key, c)]
  }

  lemma {:induction false} SummaryOfLast(m: Measure, blocks: seq<Block>)
    ensures var i := LastReal(blocks);
            LastKey(Summary(m, blocks)) == if i < 0 then None else Some(blocks[i].key)
    decreases |blocks|
  {
    if blocks != [] && blocks[|blocks| - 1].key == BLANK {
      SummaryOfLast(m, blocks[..|blocks| - 1]);
    }
  }

  lemma SummarySnoc(m: Measure, blocks: seq<Block>, b: Block)
    ensures Summary(m, blocks + [b]) == Summary(m, blocks) + if b.key == BLANK then [] else [Entry(b.key, Sum(m, b.lines))]
  {
    assert (blocks + [b])[..|blocks|] == blocks;
  }

  lemma LastExtends(m: Measure, front: seq<Block>, key: string, lines: seq<string>, more: seq<string>)
    requires key != BLANK
    ensures Summary(m, front + [Block(key, lines + more)]) == AddTo(Summary(m, front + [Block(key, lines)]), key, Sum(m, more))
  {
    SumJoins(m, lines, more);
    SummarySnoc(m, front, Block(key, lines + more));
    SummarySnoc(m, front, Block(key, lines));
    AddToLast(Summary(m, front), key, Sum(m, lines), Sum(m, more));
  }

  lemma AddToLast(front: seq<Entry>, key: string, c: Counts, d: Counts)
    ensures AddTo(front + [Entry(key, c)], key, d) == front + [Entry(key, Plus(c, d))]
  {
  }

  lemma SplitLast(blocks: seq<Block>, i: nat, b: Block)
    requires i < |blocks|
    ensures var n := |blocks| - 1;
            && blocks == blocks[..n] + [Block(blocks[n].key, blocks[n].lines)] && blocks[n] == Block(blocks[n].key, blocks[n].lines)
            && blocks[i := b] == if i == n then blocks[..n] + [b] else blocks[..n][i := b] + [blocks[n]]
  {
  }

  lemma {:induction false} SummaryExtends(m: Measure, blocks: seq<Block>, more: seq<string>)
    requires LastReal(blocks) >= 0
    ensures var i := LastReal(blocks);
            Summary(m, blocks[i := Block(blocks[i].key, blocks[i].lines + more)]) ==
            AddTo(Summary(m, blocks), blocks[i].key, Sum(m, more))
    decreases |blocks|
  {
    var i, n := LastReal(blocks), |blocks| - 1;
    var b := Block(blocks[i].key, blocks[i].lines + more);
    SplitLast(blocks, i, b);
    if i == n {
      LastExtends(m, blocks[..n], blocks[i].key, blocks[i].lines, more);
    } else {
      SummaryExtends(m, blocks[..n], more);
      SummaryIgnoresLast(m, blocks[..n][i := b], blocks[n]);
      SummaryIgnoresLast(m, blocks[..n], blocks[n]);
    }
  }

  lemma SummaryIgnoresLast(m: Measure, blocks: seq<Block>, b: Block)
    requires b.key == BLANK
    ensures Summary(m, blocks + [b]) == Summary(m, blocks)
  {
    SummarySnoc(m, blocks, b);
    assert Summary(m, blocks) + [] == Summary(m, blocks);
  }

  lemma AddLinesSummary(m: Measure, blocks: seq<Block>, key: string, more: seq<string>)
    ensures Summary(m, AddLines(blocks, key, more)) ==
            if key == BLANK then Summary(m, blocks) else AddTo(Summary(m, blocks), key, Sum(m, more))
  {
    SummaryOfLast(m, blocks);
    var i := LastReal(blocks);
    if i >= 0 && blocks[i].key == key {
      SummaryExtends(m, blocks, more);
    } else {
      SummarySnoc(m, blocks, Block(key, more));
    }
  }

  // ---------- the summary, read line by line ----------

  /** Whom the next line belongs to: nobody yet, the last entry, or the key whose name is the
      separator's and whose block is therefore ignored. */
  datatype Owner = Nobody | LastEntry | Ignored

  datatype Reading = Reading(headers: nat, entries: seq<Entry>, owner: Owner)

  function Credit(m: Measure, r: Reading, raw: string): Reading {
    if r.owner.LastEntry? && r.entries != [] then
      r.(entries := AddTo(r.entries, r.entries[|r.entries| - 1].key, m(raw)))
    else r
  }

  function Read(m: Measure, r: Reading, raw: string): Reading {
    match KindOf(raw)
    case BlankLine => r
    case CommentLine => if r.owner.Nobody? then r.(headers := r.headers + 1) else Credit(m, r, raw)
    case AttrLine => Credit(m, r, raw)
    case OtherLine => Credit(m, r, raw)
    case KeyLine(k) =>
      if k == BLANK then r.(owner := Ignored)
      else Reading(r.headers, AddTo(r.entries, k, m(raw)), LastEntry)
  }

  function ReadAll(m: Measure, r: Reading, raws: seq<string>): Reading
    decreases |raws|
  {
    if raws == [] then r else ReadAll(m, Read(m, r, raws[0]), raws[1..])
  }

  lemma {:induction false} ReadAllJoins(m: Measure, r: Reading, a: seq<string>, b: seq<string>)
    ensures ReadAll(m, r, a + b) == ReadAll(m, ReadAll(m, r, a), b)
    decreases |a|
  {
    if a == [] {
      assert a + b == b;
    } else {
      assert (a + b)[1..] == a[1..] + b;
      ReadAllJoins(m, Read(m, r, a[0]), a[1..], b);
    }
  }

  function OwnerOf(key: Option<string>): Owner {
    if key.None? then Nobody else if key.value == BLANK then Ignored else LastEntry
  }

  /** What the parser's state stands for. */
  function View(m: Measure, p: Parse): Reading {
    Reading(|p.headers|, Summary(m, Flush(p).blocks), OwnerOf(p.key))
  }

  /** A pending key heads the last entry; without a key nothing is pending. */
  ghost predicate Sound(m: Measure, p: Parse) {
    && (p.key.None? ==> p.lines == [] && p.attrs == [])
    && (p.key.Some? && p.key.value != BLANK ==> LastKey(Summary(m, Flush(p).blocks)) == p.key)
  }

  lemma FlushSummary(m: Measure, p: Parse)
    ensures Summary(m, Flush(p).blocks) ==
            if p.key.None? || (p.lines == [] && p.attrs == []) || p.key.value == BLANK then Summary(m, p.blocks)
            else AddTo(Summary(m, p.blocks), p.key.value, Held(m, p))
  {
    if p.key.Some? {
      AddLinesSummary(m, p.blocks, p.key.value, p.lines + p.attrs);
      SumJoins(m, p.lines, p.attrs);
    }
  }

  lemma OneLine(m: Measure, lines: seq<string>, raw: string)
    ensures Sum(m, lines + [raw]) == Plus(Sum(m, lines), m(raw)) && Sum(m, [raw]) == m(raw)
  {
    SumJoins(m, lines, [raw]);
    assert [raw][1..] == [];
  }

  lemma FlushedGrows(m: Measure, p: Parse, q: Parse, raw: string)
    requires Sound(m, p) && p.key.Some?
    requires q == p.(attrs := p.attrs + [raw]) || q == p.(lines := p.lines + [raw])
    ensures var before, after := Summary(m, Flush(p).blocks), Summary(m, Flush(q).blocks);
            if p.key.value == BLANK then after == before
            else LastKey(before) == p.key && after == AddTo(before, p.key.value, m(raw))
  {
    FlushSummary(m, p);
    FlushSummary(m, q);
    if p.key.value != BLANK {
      HeldGrows(m, p, q, raw);
      CreditIs(Summary(m, p.blocks), p.key.value, Held(m, p), m(raw), p.lines == [] && p.attrs == []);
    }
  }

  /** One more pending line is one more line of the last entry. */
  lemma PendingIsCredited(m: Measure, p: Parse, q: Parse, raw: string)
    requires Sound(m, p) && p.key.Some?
    requires q == p.(attrs := p.attrs + [raw]) || q == p.(lines := p.lines + [raw])
    ensures View(m, q) == Credit(m, View(m, p), raw) && Sound(m, q)
  {
    FlushedGrows(m, p, q, raw);
    var before, after := Summary(m, Flush(p).blocks), Summary(m, Flush(q).blocks);
    assert View(m, q) == Reading(|p.headers|, after, OwnerOf(p.key));
    assert View(m, p) == Reading(|p.headers|, before, OwnerOf(p.key));
  }

  function Held(m: Measure, p: Parse): Counts {
    Plus(Sum(m, p.lines), Sum(m, p.attrs))
  }

  lemma HeldGrows(m: Measure, p: Parse, q: Parse, raw: string)
    requires q == p.(attrs := p.attrs + [raw]) || q == p.(lines := p.lines + [raw])
    ensures Held(m, q) == Plus(Held(m, p), m(raw))
    ensures p.lines == [] && p.attrs == [] ==> Held(m, p) == Counts(0, 0, 0)
  {
    PlusMoves(Sum(m, p.lines), Sum(m, p.attrs), m(raw));
    if q == p.(attrs := p.attrs + [raw]) {
      OneLine(m, p.attrs, raw);
    } else {
      OneLine(m, p.lines, raw);
    }
  }

  lemma PlusMoves(a: Counts, b: Counts, c: Counts)
    ensures Plus(a, Plus(b, c)) == Plus(Plus(a, b), c) == Plus(Plus(a, c), b)
  {
  }

  lemma CreditIs(entries: seq<Entry>, key: string, held: Counts, c: Counts, nothing: bool)
    requires nothing ==> held == Counts(0, 0, 0) && LastKey(entries) == Some(key)
    ensures var before := if nothing then entries else AddTo(entries, key, held);
            LastKey(before) == Some(key) && AddTo(entries, key, Plus(held, c)) == AddTo(before, key, c)
  {
  }

  lemma FlushedIsFixed(p: Parse)
    ensures Flush(Flush(p)) == Flush(p)
  {
  }

  lemma StepIsRead(m: Measure, p: Parse, raw: string)
    requires Sound(m, p)
    ensures Sound(m, Step(p, raw)) && View(m, Step(p, raw)) == Read(m, View(m, p), raw)
  {
    FlushedIsFixed(p);
    match KindOf(raw) {
      case BlankLine => BlankIsRead(m, p, raw);
      case CommentLine => if p.key.Some? { PendingIsCredited(m, p, Step(p, raw), raw); }
      case AttrLine => if p.key.Some? { PendingIsCredited(m, p, Step(p, raw), raw); }
      case OtherLine => if p.key.Some? { PendingIsCredited(m, p, Step(p, raw), raw); }
      case KeyLine(k) => KeyIsRead(m, p, raw, k);
    }
  }

  lemma BlankIsRead(m: Measure, p: Parse, raw: string)
    requires Sound(m, p) && KindOf(raw).BlankLine?
    ensures Sound(m, Step(p, raw)) && View(m, Step(p, raw)) == Read(m, View(m, p), raw)
  {
    var q := Flush(p);
    var flushed := q.(blocks := q.blocks + [Block(BLANK, [])]);
    assert Step(p, raw) == flushed && Flush(flushed) == flushed;
    SummarySnoc(m, q.blocks, Block(BLANK, []));
    assert Summary(m, q.blocks) + [] == Summary(m, q.blocks);
  }

  lemma KeyIsRead(m: Measure, p: Parse, raw: string, k: string)
    requires Sound(m, p) && KindOf(raw) == KeyLine(k)
    ensures Sound(m, Step(p, raw)) && View(m, Step(p, raw)) == Read(m, View(m, p), raw)
  {
    var q := Step(p, raw);
    assert q == Flush(p).(key := Some(k), lines := [raw], attrs := []);
    FlushSummary(m, q);
    OneLine(m, [], raw);
    assert [] + [raw] == [raw];
    assert Held(m, q) == m(raw);
  }

  lemma {:induction false} StepsAreReads(m: Measure, p: Parse, raws: seq<string>)
    requires Sound(m, p)
    ensures Sound(m, Steps(p, raws)) && View(m, Steps(p, raws)) == ReadAll(m, View(m, p), raws)
    decreases |raws|
  {
    if raws != [] {
      StepIsRead(m, p, raws[0]);
      StepsAreReads(m, Step(p, raws[0]), raws[1..]);
    }
  }

  const UNREAD := Reading(0, [], Nobody)

  /** The parser, with its flushes, merges and separators, sums up each text as a plain line-by-line
      reading does. */
  lemma CollectIsReading(m: Measure, text: string)
    ensures var r := ReadAll(m, UNREAD, SplitLines(text));
            r.entries == Summary(m, Collect(text).blocks) && r.headers == |Collect(text).headers|
  {
    assert View(m, START) == UNREAD;
    StepsAreReads(m, START, SplitLines(text));
  }
}
