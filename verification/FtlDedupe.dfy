/**
  `process_file` of scripts/dedupe-ftl.py: within one Fluent file, every key
  keeps the block of its first definition and loses the others.
 */
module FtlDedupe {
  import opened Sequences
  import opened PyText

  predicate KeyStart(c: char) {
    c == '-' || IsLetter(c)
  }

  lemma KeyStartIs(c: char)
    ensures KeyStart(c) <==> IsIdent(c) && c != '_' && !('0' <= c <= '9')
  {
  }

  /** KEY_PATTERN: a key or a term defined at column zero. */
  function Key(line: string): Option<string> {
    NameBeforeEquals(line, 0, KeyStart)
  }

  /** BOUNDARY_PATTERN: a definition or a comment at column zero. */
  predicate Boundary(line: string) {
    Key(line).Some? || (line != "" && line[0] == '#')
  }

  /** KEY_PATTERN, by the parts of what it matches. */
  lemma KeyIff(line: string, name: string)
    ensures Key(line) == Some(name) <==> exists blanks, rest :: NamedBy(line, name, blanks, rest, KeyStart)
  {
    assert line[0..] == line;
    NameBeforeEqualsIff(line, 0, KeyStart, name);
  }

  lemma BoundaryIff(line: string)
    ensures Boundary(line) <==>
            || (exists name, blanks, rest :: NamedBy(line, name, blanks, rest, KeyStart))
            || exists rest :: line == "#" + rest
  {
    if Key(line).Some? {
      KeyIff(line, Key(line).value);
    }
    if name, blanks, rest :| NamedBy(line, name, blanks, rest, KeyStart) {
      KeyIff(line, name);
    }
    if line != "" && line[0] == '#' {
      assert line == "#" + line[1..];
    }
  }

  /** A definition with the lines up to the next boundary, or a line that belongs to none. */
  datatype Block = Keyed(key: string, lines: seq<string>) | Loose(line: string)

  function Continuation(lines: seq<string>): (n: nat)
    ensures n <= |lines| && (n < |lines| ==> Boundary(lines[n])) && forall i :: 0 <= i < n ==> !Boundary(lines[i])
  {
    if lines == [] || Boundary(lines[0]) then 0
    else
      var n := Continuation(lines[1..]) + 1;
      assert forall i :: 1 <= i < n ==> lines[i] == lines[1..][i - 1];
      n
  }

  function Blocks(lines: seq<string>): seq<Block>
    decreases |lines|
  {
    if lines == [] then []
    else if Key(lines[0]).Some? then
      var n := 1 + Continuation(lines[1..]);
      [Keyed(Key(lines[0]).value, lines[..n])] + Blocks(lines[n..])
    else
      [Loose(lines[0])] + Blocks(lines[1..])
  }

  function LinesOf(b: Block): seq<string> {
    if b.Keyed? then b.lines else [b.line]
  }

  function Flatten(bs: seq<Block>): seq<string> {
    if bs == [] then [] else LinesOf(bs[0]) + Flatten(bs[1..])
  }

  /** The blocks that stay when the keys of `seen` are taken. */
  function KeepFirst(bs: seq<Block>, seen: set<string>): seq<Block> {
    if bs == [] then []
    else if bs[0].Keyed? && bs[0].key in seen then KeepFirst(bs[1..], seen)
    else [bs[0]] + KeepFirst(bs[1..], if bs[0].Keyed? then seen + {bs[0].key} else seen)
  }

  method ProcessLines(lines: seq<string>) returns (out: seq<string>)
    ensures out == Flatten(KeepFirst(Blocks(lines), {}))
  {
    var seenKeys: set<string> := {};
    out := [];
    var i := 0;
    while i < |lines|
      invariant 0 <= i <= |lines|
      invariant out + Flatten(KeepFirst(Blocks(lines[i..]), seenKeys)) == Flatten(KeepFirst(Blocks(lines), {}))
    {
      var line := lines[i];
      var m := Key(line);
      if m.Some? {
        var j := NextBoundary(lines, i + 1);
        KeyedStep(lines, i, j, seenKeys, out);
        if m.value in seenKeys {
          assert seenKeys + {m.value} == seenKeys;
        } else {
          seenKeys := seenKeys + {m.value};
          out := out + lines[i..j];
        }
        i := j;
      } else {
        LooseStep(lines, i, seenKeys, out);
        out := out + [line];
        i := i + 1;
      }
    }
    assert lines[i..] == [];
  }

  /** The inner loop: forward to the start of the next block. */
  method NextBoundary(lines: seq<string>, from: nat) returns (j: nat)
    requires from <= |lines|
    ensures j == from + Continuation(lines[from..])
  {
    j := from;
    while j < |lines| && !Boundary(lines[j])
      invariant from <= j <= |lines| && forall k :: from <= k < j ==> !Boundary(lines[k])
    {
      j := j + 1;
    }
    ContinuationIs(lines[from..], j - from);
  }

  lemma KeyedStep(lines: seq<string>, i: nat, j: nat, seen: set<string>, out: seq<string>)
    requires i < |lines| && Key(lines[i]).Some? && j == i + 1 + Continuation(lines[i + 1..])
    ensures var key := Key(lines[i]).value;
            out + Flatten(KeepFirst(Blocks(lines[i..]), seen))
            == (if key in seen then out else out + lines[i..j]) + Flatten(KeepFirst(Blocks(lines[j..]), seen + {key}))
  {
    var key, rest := Key(lines[i]).value, Blocks(lines[j..]);
    BlockAt(lines, i);
    if key in seen {
      assert seen + {key} == seen;
    } else {
      FlattenAfter(out, Keyed(key, lines[i..j]), KeepFirst(rest, seen + {key}));
    }
  }

  lemma FlattenAfter(out: seq<string>, b: Block, rest: seq<Block>)
    ensures out + Flatten([b] + rest) == out + LinesOf(b) + Flatten(rest)
  {
    assert ([b] + rest)[0] == b && ([b] + rest)[1..] == rest;
    assert out + (LinesOf(b) + Flatten(rest)) == out + LinesOf(b) + Flatten(rest);
  }

  lemma LooseStep(lines: seq<string>, i: nat, seen: set<string>, out: seq<string>)
    requires i < |lines| && Key(lines[i]).None?
    ensures out + Flatten(KeepFirst(Blocks(lines[i..]), seen))
            == out + [lines[i]] + Flatten(KeepFirst(Blocks(lines[i + 1..]), seen))
  {
    BlockAt(lines, i);
    FlattenAfter(out, Loose(lines[i]), KeepFirst(Blocks(lines[i + 1..]), seen));
  }

  lemma BlockAt(lines: seq<string>, i: nat)
    requires i < |lines|
    ensures Key(lines[i]).Some? ==>
              var n := 1 + Continuation(lines[i + 1..]);
              i + n <= |lines| && Blocks(lines[i..]) == [Keyed(Key(lines[i]).value, lines[i..i + n])] + Blocks(lines[i + n..])
    ensures Key(lines[i]).None? ==> Blocks(lines[i..]) == [Loose(lines[i])] + Blocks(lines[i + 1..])
  {
    assert lines[i..][1..] == lines[i + 1..];
    var n := 1 + Continuation(lines[i + 1..]);
    assert lines[i..][n..] == lines[i + n..] && lines[i..][..n] == lines[i..i + n];
  }

  lemma ContinuationIs(lines: seq<string>, n: nat)
    requires n <= |lines| && (n < |lines| ==> Boundary(lines[n])) && forall i :: 0 <= i < n ==> !Boundary(lines[i])
    ensures Continuation(lines) == n
  {
    var k := Continuation(lines);
    assert k < |lines| ==> Boundary(lines[k]);
  }

  // ---------- blocks and lines say the same ----------

  /** What the block parser produces: a definition line, then no boundary; after a definition block
      a boundary. */
  ghost predicate Proper(bs: seq<Block>) {
    && (forall i :: 0 <= i < |bs| ==> ProperBlock(bs[i]))
    && (forall i :: 0 < i < |bs| && bs[i - 1].Keyed? ==> Boundary(LinesOf(bs[i])[0]))
  }

  predicate ProperBlock(b: Block) {
    match b
    case Keyed(key, lines) =>
      lines != [] && Key(lines[0]) == Some(key) && forall i :: 1 <= i < |lines| ==> !Boundary(lines[i])
    case Loose(line) => Key(line).None?
  }

  /** The first block of `lines` and how many lines it takes. */
  lemma FirstBlock(lines: seq<string>) returns (b: Block, n: nat)
    requires lines != []
    ensures 1 <= n <= |lines| && ProperBlock(b) && LinesOf(b) == lines[..n]
    ensures Blocks(lines) == [b] + Blocks(lines[n..])
    ensures b.Keyed? && n < |lines| ==> Boundary(lines[n])
  {
    if Key(lines[0]).Some? {
      n := 1 + Continuation(lines[1..]);
      b := Keyed(Key(lines[0]).value, lines[..n]);
      assert forall i :: 1 <= i < n ==> lines[..n][i] == lines[1..][i - 1];
      assert n < |lines| ==> lines[n] == lines[1..][n - 1];
    } else {
      b, n := Loose(lines[0]), 1;
    }
  }

  lemma {:induction false} BlocksAreProper(lines: seq<string>)
    ensures Proper(Blocks(lines)) && Flatten(Blocks(lines)) == lines
    ensures lines != [] ==> Blocks(lines) != [] && LinesOf(Blocks(lines)[0])[0] == lines[0]
    decreases |lines|
  {
    if lines != [] {
      var b, n := FirstBlock(lines);
      var rest := Blocks(lines[n..]);
      BlocksAreProper(lines[n..]);
      ProperCons(b, rest);
      FlattenCons(b, rest);
      assert lines == lines[..n] + lines[n..];
    }
  }

  lemma FlattenCons(b: Block, rest: seq<Block>)
    ensures Flatten([b] + rest) == LinesOf(b) + Flatten(rest)
  {
    assert ([b] + rest)[1..] == rest;
  }

  lemma ProperCons(first: Block, rest: seq<Block>)
    requires ProperBlock(first) && Proper(rest)
    requires first.Keyed? && rest != [] ==> Boundary(LinesOf(rest[0])[0])
    ensures Proper([first] + rest)
  {
    var bs := [first] + rest;
    forall i | 0 < i < |bs| && bs[i - 1].Keyed?
      ensures Boundary(LinesOf(bs[i])[0])
    {
      if i > 1 { assert bs[i - 1] == rest[i - 2] && bs[i] == rest[i - 1]; }
    }
  }

  lemma ProperTail(bs: seq<Block>)
    requires Proper(bs) && bs != []
    ensures ProperBlock(bs[0]) && Proper(bs[1..])
    ensures bs[0].Keyed? && |bs| > 1 ==> Boundary(LinesOf(bs[1])[0])
  {
    var rest := bs[1..];
    forall i | 0 < i < |rest| && rest[i - 1].Keyed?
      ensures Boundary(LinesOf(rest[i])[0])
    {
      assert bs[i + 1 - 1] == rest[i - 1] && bs[i + 1] == rest[i];
    }
  }

  lemma FlattenStart(bs: seq<Block>)
    requires Proper(bs)
    ensures Flatten(bs) != [] <==> bs != []
    ensures bs != [] ==> Flatten(bs)[0] == LinesOf(bs[0])[0]
  {
    if bs != [] { assert ProperBlock(bs[0]); }
  }

  lemma ReadBack(b: Block, rest: seq<string>)
    requires ProperBlock(b) && (b.Keyed? && rest != [] ==> Boundary(rest[0]))
    ensures Blocks(LinesOf(b) + rest) == [b] + Blocks(rest)
  {
    var own := LinesOf(b);
    var lines := own + rest;
    assert lines[0] == own[0] && lines[|own|..] == rest && lines[..|own|] == own;
    if b.Keyed? {
      assert lines[1..] == own[1..] + rest;
    }
  }

  /** Re-reading proper blocks gives them back. */
  lemma {:induction false} Reparse(bs: seq<Block>)
    requires Proper(bs)
    ensures Blocks(Flatten(bs)) == bs
    decreases |bs|
  {
    if bs != [] {
      ProperTail(bs);
      Reparse(bs[1..]);
      FlattenStart(bs[1..]);
      ReadBack(bs[0], Flatten(bs[1..]));
    }
  }

  // ---------- what stays ----------

  /** Dropping definition blocks leaves a definition followed by a boundary. */
  lemma {:induction false} KeptIsProper(bs: seq<Block>, seen: set<string>)
    requires Proper(bs)
    ensures Proper(KeepFirst(bs, seen))
    ensures KeepFirst(bs, seen) != [] ==>
              KeepFirst(bs, seen)[0] == bs[0] || Boundary(LinesOf(KeepFirst(bs, seen)[0])[0])
    decreases |bs|
  {
    if bs != [] {
      ProperTail(bs);
      var rest := bs[1..];
      if bs[0].Keyed? && bs[0].key in seen {
        KeptIsProper(rest, seen);
      } else {
        var seen' := if bs[0].Keyed? then seen + {bs[0].key} else seen;
        KeptIsProper(rest, seen');
        ProperCons(bs[0], KeepFirst(rest, seen'));
      }
    }
  }

  ghost predicate DistinctKeys(bs: seq<Block>) {
    forall i, j :: 0 <= i < j < |bs| && bs[i].Keyed? && bs[j].Keyed? ==> bs[i].key != bs[j].key
  }

  lemma {:induction false} KeptKeysAreNew(bs: seq<Block>, seen: set<string>)
    ensures DistinctKeys(KeepFirst(bs, seen))
    ensures forall b :: b in KeepFirst(bs, seen) && b.Keyed? ==> b.key !in seen
    decreases |bs|
  {
    if bs != [] {
      var seen' := if bs[0].Keyed? then seen + {bs[0].key} else seen;
      KeptKeysAreNew(bs[1..], if bs[0].Keyed? && bs[0].key in seen then seen else seen');
      var kept := KeepFirst(bs[1..], seen');
      assert forall i :: 0 <= i < |kept| ==> kept[i] in kept;
    }
  }

  lemma {:induction false} DistinctIsFixed(bs: seq<Block>, seen: set<string>)
    requires DistinctKeys(bs) && forall b :: b in bs && b.Keyed? ==> b.key !in seen
    ensures KeepFirst(bs, seen) == bs
    decreases |bs|
  {
    if bs != [] {
      assert bs[0] in bs && forall b :: b in bs[1..] ==> b in bs;
      var seen' := if bs[0].Keyed? then seen + {bs[0].key} else seen;
      forall b | b in bs[1..] && b.Keyed?
        ensures b.key !in seen'
      {
        var j :| 0 <= j < |bs[1..]| && bs[1..][j] == b;
        assert bs[j + 1] == b;
      }
      DistinctIsFixed(bs[1..], seen');
    }
  }

  /** A block stays unless it redefines the key of an earlier one. */
  ghost predicate Survives(bs: seq<Block>, i: nat)
    requires i < |bs|
  {
    bs[i].Keyed? ==> forall j :: 0 <= j < i && bs[j].Keyed? ==> bs[j].key != bs[i].key
  }

  ghost function Survivors(bs: seq<Block>, n: nat): seq<Block>
    requires n <= |bs|
  {
    if n == 0 then [] else Survivors(bs, n - 1) + if Survives(bs, n - 1) then [bs[n - 1]] else []
  }

  function KeysOf(bs: seq<Block>): set<string> {
    set b | b in bs && b.Keyed? :: b.key
  }

  lemma SeenMeansRedefined(bs: seq<Block>, p: nat)
    requires p < |bs| && bs[p].Keyed?
    ensures bs[p].key in KeysOf(bs[..p]) <==> !Survives(bs, p)
  {
    var b := bs[p];
    if b.key in KeysOf(bs[..p]) {
      var c :| c in bs[..p] && c.Keyed? && c.key == b.key;
      var j :| 0 <= j < p && bs[..p][j] == c;
      assert bs[j].key == b.key;
    }
    if !Survives(bs, p) {
      var j :| 0 <= j < p && bs[j].Keyed? && bs[j].key == b.key;
      assert bs[j] in bs[..p];
    }
  }

  lemma KeysOfNext(bs: seq<Block>, p: nat)
    requires p < |bs|
    ensures KeysOf(bs[..p + 1]) == if bs[p].Keyed? then KeysOf(bs[..p]) + {bs[p].key} else KeysOf(bs[..p])
  {
    assert bs[..p + 1] == bs[..p] + [bs[p]];
  }

  lemma KeepFirstStep(bs: seq<Block>, p: nat)
    requires p < |bs|
    ensures KeepFirst(bs[p..], KeysOf(bs[..p])) ==
            (if Survives(bs, p) then [bs[p]] else []) + KeepFirst(bs[p + 1..], KeysOf(bs[..p + 1]))
  {
    assert bs[p..][0] == bs[p] && bs[p..][1..] == bs[p + 1..];
    KeysOfNext(bs, p);
    if bs[p].Keyed? {
      SeenMeansRedefined(bs, p);
      if bs[p].key in KeysOf(bs[..p]) {
        assert KeysOf(bs[..p]) + {bs[p].key} == KeysOf(bs[..p]);
      }
    }
  }

  lemma {:induction false} KeepFirstFrom(bs: seq<Block>, p: nat)
    requires p <= |bs|
    ensures Survivors(bs, p) + KeepFirst(bs[p..], KeysOf(bs[..p])) == Survivors(bs, |bs|)
    decreases |bs| - p
  {
    if p < |bs| {
      KeepFirstStep(bs, p);
      KeepFirstFrom(bs, p + 1);
      Regroup(Survivors(bs, p), if Survives(bs, p) then [bs[p]] else [], KeepFirst(bs[p + 1..], KeysOf(bs[..p + 1])));
    } else {
      assert bs[p..] == [] && Survivors(bs, p) + [] == Survivors(bs, p);
    }
  }

  /** The loop keeps, in order, every line outside definitions and the first block of every key. */
  lemma ProcessKeepsSurvivors(lines: seq<string>)
    ensures Flatten(KeepFirst(Blocks(lines), {})) == Flatten(Survivors(Blocks(lines), |Blocks(lines)|))
  {
    var bs := Blocks(lines);
    KeepFirstFrom(bs, 0);
    assert bs[0..] == bs && KeysOf(bs[..0]) == {};
    assert Survivors(bs, 0) + KeepFirst(bs, {}) == KeepFirst(bs, {});
  }

  /** The value a Fluent bundle gives a key: its first definition. */
  function Lookup(bs: seq<Block>, key: string): Option<seq<string>> {
    if bs == [] then None
    else if bs[0].Keyed? && bs[0].key == key then Some(bs[0].lines)
    else Lookup(bs[1..], key)
  }

  lemma {:induction false} LookupKept(bs: seq<Block>, seen: set<string>, key: string)
    requires key !in seen
    ensures Lookup(KeepFirst(bs, seen), key) == Lookup(bs, key)
    decreases |bs|
  {
    if bs != [] {
      var seen' := if bs[0].Keyed? then seen + {bs[0].key} else seen;
      if bs[0].Keyed? && bs[0].key in seen {
        LookupKept(bs[1..], seen, key);
      } else if !(bs[0].Keyed? && bs[0].key == key) {
        LookupKept(bs[1..], seen', key);
      }
    }
  }

  // ---------- the file ----------

  function Dedupe(text: string): string {
    Join(Flatten(KeepFirst(Blocks(SplitLines(text)), {})))
  }

  method ProcessFile(original: string) returns (content: string, before: nat, after: nat)
    ensures content == Dedupe(original)
    ensures before == |SplitLines(original)| && after == |Flatten(KeepFirst(Blocks(SplitLines(original)), {}))|
  {
    var lines := SplitLines(original);
    var out := ProcessLines(lines);
    content, before, after := Join(out), |lines|, |out|;
  }

  lemma {:induction false} FlattenKeptAreLines(bs: seq<Block>, seen: set<string>)
    requires AreLines(Flatten(bs)) && Proper(bs)
    ensures AreLines(Flatten(KeepFirst(bs, seen)))
    decreases |bs|
  {
    if bs != [] {
      ProperTail(bs);
      FlattenStart(bs[1..]);
      var own, rest := LinesOf(bs[0]), Flatten(bs[1..]);
      var all := own + rest;
      assert forall i :: 0 <= i < |own| ==> own[i] == all[i];
      assert forall i :: 0 <= i < |rest| ==> rest[i] == all[|own| + i];
      var seen' := if bs[0].Keyed? then seen + {bs[0].key} else seen;
      FlattenKeptAreLines(bs[1..], if bs[0].Keyed? && bs[0].key in seen then seen else seen');
      if rest == [] {
        assert bs[1..] == [];
      }
    }
  }

  /** Running the script again changes nothing, and the bundle means the same: no key is defined
      twice, and every key has the value it had. */
  lemma DedupeIsIdempotent(text: string)
    ensures Dedupe(Dedupe(text)) == Dedupe(text)
    ensures DistinctKeys(Blocks(SplitLines(Dedupe(text))))
    ensures forall key :: Lookup(Blocks(SplitLines(Dedupe(text))), key) == Lookup(Blocks(SplitLines(text)), key)
  {
    var bs := Blocks(SplitLines(text));
    var kept := KeepFirst(bs, {});
    SplitIsLines(text);
    BlocksAreProper(SplitLines(text));
    FlattenKeptAreLines(bs, {});
    SplitOfJoin(Flatten(kept));
    KeptIsProper(bs, {});
    Reparse(kept);
    KeptKeysAreNew(bs, {});
    DistinctIsFixed(kept, {});
    forall key
      ensures Lookup(kept, key) == Lookup(bs, key)
    {
      LookupKept(bs, {}, key);
    }
  }
}
