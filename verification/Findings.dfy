/**
  `dedupe_findings` of scripts/verify-architecture-boundaries.py: one finding
  per key, in key order.  Deduplicating each pass and then the whole is the same
  as deduplicating everything at once.
 */
module Findings {
  import opened PyText
  import opened TextOrder

  datatype Key = Key(rule: string, path: string, target: string)

  datatype Status = New | Tracked | Expired

  datatype Finding = Finding(key: Key, line: Option<nat>, status: Status)

  // ---------- the order of keys ----------

  predicate Less(a: Key, b: Key) {
    || Precedes(a.rule, b.rule)
    || (a.rule == b.rule && (Precedes(a.path, b.path) || (a.path == b.path && Precedes(a.target, b.target))))
  }

  lemma LessIsTotal(a: Key, b: Key)
    ensures a == b || Less(a, b) || Less(b, a)
  {
    PrecedesIsTotal(a.rule, b.rule);
    PrecedesIsTotal(a.path, b.path);
    PrecedesIsTotal(a.target, b.target);
  }

  lemma LessIsTransitive(a: Key, b: Key, c: Key)
    requires Less(a, b) && Less(b, c)
    ensures Less(a, c)
  {
    if Precedes(a.rule, b.rule) && Precedes(b.rule, c.rule) { PrecedesIsTransitive(a.rule, b.rule, c.rule); }
    if Precedes(a.path, b.path) && Precedes(b.path, c.path) { PrecedesIsTransitive(a.path, b.path, c.path); }
    if Precedes(a.target, b.target) && Precedes(b.target, c.target) { PrecedesIsTransitive(a.target, b.target, c.target); }
  }

  lemma LessIsStrict(a: Key)
    ensures !Less(a, a)
  {
    PrecedesIsStrict(a.rule);
    PrecedesIsStrict(a.path);
    PrecedesIsStrict(a.target);
  }

  // ---------- the representative of a key ----------

  /** The better of two findings of a key: the first, unless only the second has a line. */
  function Better(a: Option<Finding>, b: Option<Finding>): Option<Finding> {
    if a.None? || (b.Some? && a.value.line.None? && b.value.line.Some?) then b else a
  }

  function Representative(fs: seq<Finding>, key: Key): Option<Finding> {
    if fs == [] then None
    else
      var last := fs[|fs| - 1];
      Better(Representative(fs[..|fs| - 1], key), if last.key == key then Some(last) else None)
  }

  lemma {:induction false} RepresentativeJoins(a: seq<Finding>, b: seq<Finding>, key: Key)
    ensures Representative(a + b, key) == Better(Representative(a, key), Representative(b, key))
    decreases |b|
  {
    if b == [] {
      assert a + b == a;
    } else {
      assert (a + b)[..|a + b| - 1] == a + b[..|b| - 1];
      RepresentativeJoins(a, b[..|b| - 1], key);
    }
  }

  ghost predicate FirstAt(fs: seq<Finding>, i: nat, key: Key) {
    i < |fs| && fs[i].key == key && forall j :: 0 <= j < i ==> fs[j].key != key
  }

  ghost predicate FirstLocatedAt(fs: seq<Finding>, i: nat, key: Key) {
    && i < |fs| && fs[i].key == key && fs[i].line.Some?
    && forall j :: 0 <= j < i && fs[j].key == key ==> fs[j].line.None?
  }

  predicate HasKey(fs: seq<Finding>, key: Key) {
    exists i :: 0 <= i < |fs| && fs[i].key == key
  }

  predicate HasLocated(fs: seq<Finding>, key: Key) {
    exists i :: 0 <= i < |fs| && fs[i].key == key && fs[i].line.Some?
  }

  /** The representative is the first located finding of the key, else its first finding. */
  lemma {:induction false} RepresentativeIs(fs: seq<Finding>, key: Key)
    ensures Representative(fs, key).Some? <==> HasKey(fs, key)
    ensures Representative(fs, key).Some? ==> Representative(fs, key).value.key == key
    ensures HasLocated(fs, key) ==> exists i: nat :: FirstLocatedAt(fs, i, key) && Representative(fs, key) == Some(fs[i])
    ensures HasKey(fs, key) && !HasLocated(fs, key) ==>
              Representative(fs, key).value.line.None? && exists i: nat :: FirstAt(fs, i, key) && Representative(fs, key) == Some(fs[i])
    decreases |fs|
  {
    if fs != [] {
      var n := |fs| - 1;
      var front := fs[..n];
      RepresentativeIs(front, key);
      SameButLast(fs, key);
      if HasLocated(front, key) {
        var i: nat :| FirstLocatedAt(front, i, key) && Representative(front, key) == Some(front[i]);
        assert FirstLocatedAt(fs, i, key);
      } else if fs[n].key == key && fs[n].line.Some? {
        assert FirstLocatedAt(fs, n, key);
      } else if HasKey(front, key) {
        var i: nat :| FirstAt(front, i, key) && Representative(front, key) == Some(front[i]);
        assert FirstAt(fs, i, key);
      } else if fs[n].key == key {
        assert FirstAt(fs, n, key);
      }
    }
  }

  lemma SameButLast(fs: seq<Finding>, key: Key)
    requires fs != []
    ensures var front, last := fs[..|fs| - 1], fs[|fs| - 1];
            && (HasKey(fs, key) <==> HasKey(front, key) || last.key == key)
            && (HasLocated(fs, key) <==> HasLocated(front, key) || (last.key == key && last.line.Some?))
  {
    var front := fs[..|fs| - 1];
    if HasKey(front, key) {
      var i :| 0 <= i < |front| && front[i].key == key;
      assert fs[i].key == key;
    }
    if HasLocated(front, key) {
      var i :| 0 <= i < |front| && front[i].key == key && front[i].line.Some?;
      assert fs[i].key == key;
    }
    if HasKey(fs, key) && fs[|fs| - 1].key != key {
      var i :| 0 <= i < |fs| && fs[i].key == key;
      assert front[i].key == key;
    }
    if HasLocated(fs, key) && !(fs[|fs| - 1].key == key && fs[|fs| - 1].line.Some?) {
      var i :| 0 <= i < |fs| && fs[i].key == key && fs[i].line.Some?;
      assert front[i].key == key;
    }
  }

  // ---------- deduplication ----------

  ghost predicate Ascending(fs: seq<Finding>) {
    forall i, j :: 0 <= i < j < |fs| ==> Less(fs[i].key, fs[j].key)
  }

  /** `out` holds exactly the representatives of `fs`, in key order. */
  ghost predicate Deduped(fs: seq<Finding>, out: seq<Finding>) {
    && Ascending(out)
    && (forall i :: 0 <= i < |out| ==> Representative(fs, out[i].key) == Some(out[i]))
    && (forall key :: Representative(fs, key).Some? ==> HasKey(out, key))
  }

  lemma {:induction false} AscendingIsDistinct(fs: seq<Finding>, i: nat, j: nat)
    requires Ascending(fs) && i < |fs| && j < |fs| && fs[i].key == fs[j].key
    ensures i == j
  {
    LessIsStrict(fs[i].key);
  }

  /** The order of the result: by rule, then by path, then by target. */
  lemma KeysAscend(fs: seq<Finding>, out: seq<Finding>, i: nat, j: nat)
    requires Deduped(fs, out) && i < j < |out|
    ensures var a, b := out[i].key, out[j].key;
            || Precedes(a.rule, b.rule)
            || (a.rule == b.rule && Precedes(a.path, b.path))
            || (a.rule == b.rule && a.path == b.path && Precedes(a.target, b.target))
  {
    assert Less(out[i].key, out[j].key);
  }

  /** A result is its own deduplication, so its representatives are those of the input. */
  lemma DedupedRepresents(fs: seq<Finding>, out: seq<Finding>, key: Key)
    requires Deduped(fs, out)
    ensures Representative(out, key) == Representative(fs, key)
  {
    RepresentativeIs(out, key);
    if HasKey(out, key) {
      var i :| 0 <= i < |out| && out[i].key == key;
      OnlyOne(out, i);
    } else {
      assert Representative(fs, key).None?;
    }
  }

  lemma OnlyOne(out: seq<Finding>, i: nat)
    requires Ascending(out) && i < |out|
    ensures Representative(out, out[i].key) == Some(out[i])
  {
    var key := out[i].key;
    RepresentativeIs(out, key);
    assert HasKey(out, key);
    forall j | 0 <= j < |out| && out[j].key == key
      ensures j == i
    {
      AscendingIsDistinct(out, i, j);
    }
  }

  /** The input's representatives determine the result. */
  lemma {:induction false} DedupedIsUnique(a: seq<Finding>, b: seq<Finding>, out: seq<Finding>, other: seq<Finding>)
    requires Deduped(a, out) && Deduped(b, other) && forall key :: Representative(a, key) == Representative(b, key)
    ensures out == other
  {
    SameSuffix(a, b, out, other, 0);
  }

  /** If two results agree up to a place, they agree from there on. */
  lemma {:induction false} SameSuffix(a: seq<Finding>, b: seq<Finding>, out: seq<Finding>, other: seq<Finding>, n: nat)
    requires Deduped(a, out) && Deduped(b, other) && forall key :: Representative(a, key) == Representative(b, key)
    requires n <= |out| && n <= |other| && out[..n] == other[..n]
    ensures out == other
    decreases |out| - n
  {
    if n < |out| {
      NextIs(a, b, out, other, n);
      if n < |other| {
        NextIs(b, a, other, out, n);
        LessIsTotal(out[n].key, other[n].key);
        LessOrSame(out, other, n);
        LessOrSame(other, out, n);
        assert out[..n + 1] == out[..n] + [out[n]] && other[..n + 1] == other[..n] + [other[n]];
        SameSuffix(a, b, out, other, n + 1);
      }
    } else if n < |other| {
      NextIs(b, a, other, out, n);
    } else {
      assert out[..n] == out && other[..n] == other;
    }
  }

  /** The next element of one result stands further on in the other. */
  lemma NextIs(a: seq<Finding>, b: seq<Finding>, out: seq<Finding>, other: seq<Finding>, n: nat)
    requires Deduped(a, out) && Deduped(b, other) && forall key :: Representative(a, key) == Representative(b, key)
    requires n < |out| && n <= |other| && out[..n] == other[..n]
    ensures exists i :: n <= i < |other| && other[i] == out[n]
  {
    var key := out[n].key;
    assert Representative(b, key) == Some(out[n]);
    assert HasKey(other, key);
    var i :| 0 <= i < |other| && other[i].key == key;
    if i < n {
      assert out[i] == out[..n][i] == other[..n][i] == other[i];
      AscendingIsDistinct(out, i, n);
    }
    assert Representative(b, other[i].key) == Some(other[i]);
  }

  lemma LessOrSame(out: seq<Finding>, other: seq<Finding>, n: nat)
    requires Ascending(out) && Ascending(other) && n < |out| && n < |other|
    requires exists i :: n <= i < |other| && other[i] == out[n]
    requires exists i :: n <= i < |out| && out[i] == other[n]
    ensures out[n] == other[n]
  {
    var i :| n <= i < |other| && other[i] == out[n];
    var j :| n <= j < |out| && out[j] == other[n];
    if i > n && j > n {
      LessIsTransitive(out[n].key, out[j].key, other[i].key);
      LessIsStrict(out[n].key);
    }
  }

  // ---------- the function ----------

  function Insert(f: Finding, fs: seq<Finding>): seq<Finding> {
    if fs == [] || Less(f.key, fs[0].key) then [f] + fs else [fs[0]] + Insert(f, fs[1..])
  }

  /** sorted(), by key. */
  function Sorted(fs: seq<Finding>): seq<Finding> {
    if fs == [] then [] else Insert(fs[|fs| - 1], Sorted(fs[..|fs| - 1]))
  }

  lemma {:induction false} InsertHolds(f: Finding, fs: seq<Finding>, g: Finding)
    ensures g in Insert(f, fs) <==> g == f || g in fs
  {
    if fs != [] && !Less(f.key, fs[0].key) {
      InsertHolds(f, fs[1..], g);
      assert fs == [fs[0]] + fs[1..];
    }
  }

  lemma {:induction false} InsertKeepsOrder(f: Finding, fs: seq<Finding>)
    requires Ascending(fs) && forall i :: 0 <= i < |fs| ==> fs[i].key != f.key
    ensures Ascending(Insert(f, fs))
  {
    if fs != [] {
      var rest := fs[1..];
      if Less(f.key, fs[0].key) {
        forall i | 0 <= i < |fs|
          ensures Less(f.key, fs[i].key)
        {
          if i > 0 { LessIsTransitive(f.key, fs[0].key, fs[i].key); }
        }
      } else {
        LessIsTotal(f.key, fs[0].key);
        InsertKeepsOrder(f, rest);
        var tail := Insert(f, rest);
        forall i | 0 <= i < |tail|
          ensures Less(fs[0].key, tail[i].key)
        {
          InsertHolds(f, rest, tail[i]);
          if tail[i] != f {
            var j :| 0 <= j < |rest| && rest[j] == tail[i];
            assert Less(fs[0].key, fs[j + 1].key);
          }
        }
      }
    }
  }

  ghost predicate DistinctKeys(fs: seq<Finding>) {
    forall i, j :: 0 <= i < j < |fs| ==> fs[i].key != fs[j].key
  }

  lemma {:induction false} SortedSorts(fs: seq<Finding>)
    requires DistinctKeys(fs)
    ensures Ascending(Sorted(fs)) && forall g :: g in Sorted(fs) <==> g in fs
    decreases |fs|
  {
    if fs != [] {
      var n := |fs| - 1;
      var front := Sorted(fs[..n]);
      SortedSorts(fs[..n]);
      forall i | 0 <= i < |front|
        ensures front[i].key != fs[n].key
      {
        assert front[i] in fs[..n];
      }
      InsertKeepsOrder(fs[n], front);
      forall g
        ensures g in Sorted(fs) <==> g in fs
      {
        InsertHolds(fs[n], front, g);
        assert fs == fs[..n] + [fs[n]];
      }
    }
  }

  /** The findings kept by the dictionary, in the order in which their keys came up. */
  function Values(keys: seq<Key>, unique: map<Key, Finding>): seq<Finding>
    requires forall i :: 0 <= i < |keys| ==> keys[i] in unique
  {
    seq(|keys|, i requires 0 <= i < |keys| => unique[keys[i]])
  }

  /** What the dictionary holds after the findings `fs`. */
  ghost predicate Holds(keys: seq<Key>, unique: map<Key, Finding>, fs: seq<Finding>) {
    && (forall i, j :: 0 <= i < j < |keys| ==> keys[i] != keys[j])
    && (forall i :: 0 <= i < |keys| ==> keys[i] in unique)
    && (forall key :: key in unique ==> key in keys)
    && (forall key :: Representative(fs, key) == if key in unique then Some(unique[key]) else None)
    && (forall key :: key in unique ==> unique[key].key == key)
  }

  method DedupeFindings(fs: seq<Finding>) returns (out: seq<Finding>)
    ensures Deduped(fs, out)
  {
    var keys: seq<Key> := [];
    var unique: map<Key, Finding> := map[];
    for i := 0 to |fs|
      invariant Holds(keys, unique, fs[..i])
    {
      var f := fs[i];
      assert fs[..i + 1][..i] == fs[..i] && fs[..i + 1][i] == f;
      if f.key !in unique {
        keys, unique := keys + [f.key], unique[f.key := f];
      } else if unique[f.key].line.None? && f.line.Some? {
        unique := unique[f.key := f];
      }
    }
    assert fs[..|fs|] == fs;
    out := Sorted(Values(keys, unique));
    ValuesDedupe(keys, unique, fs);
  }

  lemma ValuesDedupe(keys: seq<Key>, unique: map<Key, Finding>, fs: seq<Finding>)
    requires Holds(keys, unique, fs)
    ensures Deduped(fs, Sorted(Values(keys, unique)))
  {
    var values := Values(keys, unique);
    var out := Sorted(values);
    SortedSorts(values);
    forall i | 0 <= i < |out|
      ensures Representative(fs, out[i].key) == Some(out[i])
    {
      assert out[i] in values;
    }
    forall key | Representative(fs, key).Some?
      ensures HasKey(out, key)
    {
      var i :| 0 <= i < |keys| && keys[i] == key;
      assert values[i] in values;
      assert unique[key] in out;
      var j :| 0 <= j < |out| && out[j] == unique[key];
    }
  }

  // ---------- several passes ----------

  function Concat(parts: seq<seq<Finding>>): seq<Finding> {
    if parts == [] then [] else Concat(parts[..|parts| - 1]) + parts[|parts| - 1]
  }

  ghost predicate EachDeduped(raw: seq<seq<Finding>>, parts: seq<seq<Finding>>) {
    |raw| == |parts| && forall i :: 0 <= i < |raw| ==> Deduped(raw[i], parts[i])
  }

  lemma {:induction false} PartsRepresent(raw: seq<seq<Finding>>, parts: seq<seq<Finding>>, key: Key)
    requires EachDeduped(raw, parts)
    ensures Representative(Concat(parts), key) == Representative(Concat(raw), key)
    decreases |raw|
  {
    if raw != [] {
      var n := |raw| - 1;
      PartsRepresent(raw[..n], parts[..n], key);
      DedupedRepresents(raw[n], parts[n], key);
      RepresentativeJoins(Concat(raw[..n]), raw[n], key);
      RepresentativeJoins(Concat(parts[..n]), parts[n], key);
    }
  }

  /** Deduplicating the deduplicated passes is deduplicating all the findings at once; nothing is lost. */
  lemma PassesMayDedupeFirst(raw: seq<seq<Finding>>, parts: seq<seq<Finding>>, out: seq<Finding>)
    requires EachDeduped(raw, parts)
    ensures Deduped(Concat(parts), out) <==> Deduped(Concat(raw), out)
  {
    forall key
      ensures Representative(Concat(parts), key) == Representative(Concat(raw), key)
    {
      PartsRepresent(raw, parts, key);
    }
  }
}
