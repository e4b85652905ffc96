/**
  The patterns of scripts/translate-stub.py, and what they are blind to: text
  put behind an equals sign or at the end of a line, as long as it holds no
  brace and no `>`.
 */
module FtlPatterns {
  import opened PyText

  predicate IdentStart(c: char) {
    IsLetter(c) || c == '_'
  }

  lemma IdentStartIs(c: char)
    ensures IdentStart(c) <==> IsIdent(c) && c != '-' && !('0' <= c <= '9')
  {
  }

  /** KEY_RE */
  function Key(line: string): Option<string> {
    NameBeforeEquals(line, 0, IdentStart)
  }

  /** ATTR_RE */
  predicate IsAttr(line: string) {
    var i := SpaceEnd(line, 0);
    i < |line| && line[i] == '.' && NameBeforeEquals(line, i + 1, IdentStart).Some?
  }

  /** The end of `\{\s*\$IDENT` at `i`, its identifier taken as far as it goes; 0 if there is none. */
  function VariableEnd(s: string, i: nat): (n: nat)
    requires i <= |s|
    ensures n <= |s| && (n != 0 ==> n > i + 2)
  {
    if i < |s| && s[i] == '{' then
      var j := SpaceEnd(s, i + 1);
      if j + 1 < |s| && s[j] == '$' && IdentStart(s[j + 1]) then IdentEnd(s, j + 1) else 0
    else 0
  }

  datatype Pattern = Placeholder | Select

  /** Where the match of PLACEHOLDER_RE or SELECT_RE at `i` ends, or 0.  An identifier may end in a
      dash, which SELECT_RE gives back to its arrow. */
  function MatchEnd(p: Pattern, s: string, i: nat): (m: nat)
    requires i <= |s|
    ensures m <= |s| && (m != 0 ==> m > i)
  {
    var n := VariableEnd(s, i);
    if n == 0 then 0
    else
      var k := SpaceEnd(s, n);
      if p.Placeholder? then (if k < |s| && s[k] == '}' then k + 1 else 0)
      else if k + 1 < |s| && s[k] == '-' && s[k + 1] == '>' then k + 2
      else if s[n - 1] == '-' && n < |s| && s[n] == '>' then n + 1
      else 0
  }

  predicate MatchesAt(p: Pattern, s: string, i: int) {
    0 <= i <= |s| && MatchEnd(p, s, i) != 0
  }

  function Hits(p: Pattern, s: string): (hits: seq<bool>)
    ensures |hits| == |s| && forall i :: 0 <= i < |s| ==> (hits[i] <==> MatchesAt(p, s, i))
  {
    seq(|s|, i requires 0 <= i < |s| => MatchesAt(p, s, i))
  }

  function CountTrue(hits: seq<bool>): nat {
    if hits == [] then 0 else (if hits[0] then 1 else 0) + CountTrue(hits[1..])
  }

  /** len(findall): matches cannot overlap, for each holds a single opening brace. */
  function Matches(p: Pattern, s: string): nat {
    CountTrue(Hits(p, s))
  }

  // ---------- a match is local ----------

  /** The strings agree up to `n`. */
  predicate Agree(s: string, t: string, n: nat) {
    n <= |s| && n <= |t| && forall j :: 0 <= j < n ==> s[j] == t[j]
  }

  lemma RunsAgree(s: string, t: string, n: nat, i: nat)
    requires Agree(s, t, n) && i <= n
    ensures SpaceEnd(s, i) < n ==> SpaceEnd(t, i) == SpaceEnd(s, i)
    ensures IdentEnd(s, i) < n ==> IdentEnd(t, i) == IdentEnd(s, i)
  {
    if SpaceEnd(s, i) < n { SpaceEndIs(t, i, SpaceEnd(s, i)); }
    if IdentEnd(s, i) < n { IdentEndIs(t, i, IdentEnd(s, i)); }
  }

  lemma VariableAgrees(s: string, t: string, n: nat, i: nat)
    requires Agree(s, t, n) && i <= n && 0 < VariableEnd(s, i) < n
    ensures VariableEnd(t, i) == VariableEnd(s, i)
  {
    var j := SpaceEnd(s, i + 1);
    RunsAgree(s, t, n, i + 1);
    RunsAgree(s, t, n, j + 1);
    VariableFrom(s, i, j);
    VariableFrom(t, i, j);
  }

  lemma MatchAgrees(p: Pattern, s: string, t: string, n: nat, i: nat)
    requires Agree(s, t, n) && i <= n && 0 < MatchEnd(p, s, i) <= n
    ensures MatchEnd(p, t, i) == MatchEnd(p, s, i)
  {
    VariableAgrees(s, t, n, i);
    RunsAgree(s, t, n, VariableEnd(s, i));
  }

  /** A match starts with a brace, ends with a brace or an arrow, and holds no equals sign. */
  lemma MatchShape(p: Pattern, s: string, i: nat)
    requires i <= |s| && MatchEnd(p, s, i) != 0
    ensures var m := MatchEnd(p, s, i);
            && i < |s| && s[i] == '{' && (s[m - 1] == '}' || s[m - 1] == '>')
            && forall j :: i <= j < m ==> s[j] != '='
  {
  }

  /** `t` is `d` characters and then `s`. */
  predicate Shifted(s: string, t: string, d: nat) {
    |t| == d + |s| && forall j :: 0 <= j < |s| ==> t[d + j] == s[j]
  }

  lemma RunsShift(s: string, t: string, d: nat, i: nat)
    requires Shifted(s, t, d) && i <= |s|
    ensures SpaceEnd(t, d + i) == d + SpaceEnd(s, i)
    ensures IdentEnd(t, d + i) == d + IdentEnd(s, i)
  {
    SpacesShift(s, t, d, i);
    IdentsShift(s, t, d, i);
  }

  lemma {:induction false} SpacesShift(s: string, t: string, d: nat, i: nat)
    requires Shifted(s, t, d) && i <= |s|
    ensures SpaceEnd(t, d + i) == d + SpaceEnd(s, i)
    decreases |s| - i
  {
    if i < |s| {
      assert t[d + i] == s[i];
      SpacesShift(s, t, d, i + 1);
    }
  }

  lemma {:induction false} IdentsShift(s: string, t: string, d: nat, i: nat)
    requires Shifted(s, t, d) && i <= |s|
    ensures IdentEnd(t, d + i) == d + IdentEnd(s, i)
    decreases |s| - i
  {
    if i < |s| {
      assert t[d + i] == s[i];
      IdentsShift(s, t, d, i + 1);
    }
  }

  lemma VariableShifts(s: string, t: string, d: nat, i: nat)
    requires Shifted(s, t, d) && i <= |s|
    ensures VariableEnd(t, d + i) == if VariableEnd(s, i) == 0 then 0 else d + VariableEnd(s, i)
  {
    CharShifts(s, t, d, i);
    if i < |s| && s[i] == '{' {
      RunsShift(s, t, d, i + 1);
      TailShifts(s, t, d, SpaceEnd(s, i + 1));
      VariableMoves(s, t, d, i, SpaceEnd(s, i + 1));
    }
  }

  lemma CharShifts(s: string, t: string, d: nat, i: nat)
    requires Shifted(s, t, d) && i <= |s|
    ensures |t| == d + |s| && (i < |s| ==> t[d + i] == s[i])
  {
  }

  /** The facts about a dollar sign at `j` and the identifier behind it. */
  predicate SameTail(s: string, t: string, d: nat, j: nat) {
    |t| == d + |s| && (j + 1 < |s| ==>
      t[d + j] == s[j] && t[d + j + 1] == s[j + 1] && IdentEnd(t, d + j + 1) == d + IdentEnd(s, j + 1))
  }

  lemma TailShifts(s: string, t: string, d: nat, j: nat)
    requires Shifted(s, t, d)
    ensures SameTail(s, t, d, j)
  {
    if j + 1 < |s| {
      CharShifts(s, t, d, j);
      CharShifts(s, t, d, j + 1);
      IdentsShift(s, t, d, j + 1);
    }
  }

  lemma VariableMoves(s: string, t: string, d: nat, i: nat, j: nat)
    requires i < |s| && SameTail(s, t, d, j) && s[i] == '{' && t[d + i] == '{'
    requires j == SpaceEnd(s, i + 1) && SpaceEnd(t, d + i + 1) == d + j
    ensures VariableEnd(t, d + i) == if VariableEnd(s, i) == 0 then 0 else d + VariableEnd(s, i)
  {
    VariableFrom(s, i, j);
    VariableFrom(t, d + i, d + j);
  }

  lemma VariableFrom(s: string, i: nat, j: nat)
    requires i < |s| && s[i] == '{' && j == SpaceEnd(s, i + 1)
    ensures VariableEnd(s, i) == if j + 1 < |s| && s[j] == '$' && IdentStart(s[j + 1]) then IdentEnd(s, j + 1) else 0
  {
  }

  lemma MatchShifts(p: Pattern, s: string, t: string, d: nat, i: nat)
    requires Shifted(s, t, d) && i <= |s|
    ensures MatchesAt(p, t, d + i) <==> MatchesAt(p, s, i)
  {
    VariableShifts(s, t, d, i);
    var n := VariableEnd(s, i);
    if n != 0 {
      RunsShift(s, t, d, n);
      MatchFollows(p, s, t, d, i, n);
    }
  }

  lemma MatchFollows(p: Pattern, s: string, t: string, d: nat, i: nat, n: nat)
    requires Shifted(s, t, d) && i < n <= |s| && VariableEnd(s, i) == n && VariableEnd(t, d + i) == d + n
    requires SpaceEnd(t, d + n) == d + SpaceEnd(s, n)
    ensures MatchesAt(p, t, d + i) <==> MatchesAt(p, s, i)
  {
  }

  // ---------- counting ----------

  lemma {:induction false} CountJoins(a: seq<bool>, b: seq<bool>)
    ensures CountTrue(a + b) == CountTrue(a) + CountTrue(b)
  {
    if a == [] {
      assert a + b == b;
    } else {
      assert (a + b)[1..] == a[1..] + b;
      CountJoins(a[1..], b);
    }
  }

  lemma {:induction false} CountNone(a: seq<bool>)
    requires forall i :: 0 <= i < |a| ==> !a[i]
    ensures CountTrue(a) == 0
  {
    if a != [] { CountNone(a[1..]); }
  }

  predicate Lacks(s: string, c: char) {
    forall i :: 0 <= i < |s| ==> s[i] != c
  }

  /** No brace and no arrow head: such text neither starts nor ends a match. */
  predicate Quiet(s: string) {
    Lacks(s, '{') && Lacks(s, '}') && Lacks(s, '>')
  }

  lemma NoMatchHere(p: Pattern, s: string, i: nat)
    requires i < |s| && s[i] != '{'
    ensures !MatchesAt(p, s, i)
  {
  }

  lemma NoBraceNoMatch(p: Pattern, s: string)
    requires Lacks(s, '{')
    ensures Matches(p, s) == 0
  {
    forall i | 0 <= i < |s|
      ensures !Hits(p, s)[i]
    {
      NoMatchHere(p, s, i);
    }
    CountNone(Hits(p, s));
  }

  lemma BackHits(p: Pattern, a: string, b: string)
    ensures Hits(p, a + b) == Hits(p, a + b)[..|a|] + Hits(p, b)
  {
    AppendShifts(a, b);
    BackHitsOf(p, b, a + b, |a|);
  }

  lemma AppendShifts(a: string, b: string)
    ensures Shifted(b, a + b, |a|)
  {
  }

  lemma BackHitsOf(p: Pattern, s: string, t: string, d: nat)
    requires Shifted(s, t, d)
    ensures Hits(p, t) == Hits(p, t)[..d] + Hits(p, s)
  {
    ShiftedHits(p, s, t, d);
    SameHits(p, t, d, s);
  }

  lemma ShiftedHits(p: Pattern, s: string, t: string, d: nat)
    requires Shifted(s, t, d)
    ensures |t| == d + |s| && forall i :: 0 <= i < |s| ==> (MatchesAt(p, t, d + i) <==> MatchesAt(p, s, i))
  {
    forall i | 0 <= i < |s|
      ensures MatchesAt(p, t, d + i) <==> MatchesAt(p, s, i)
    {
      MatchShifts(p, s, t, d, i);
    }
  }

  lemma SameHits(p: Pattern, t: string, n: nat, b: string)
    requires |t| == n + |b| && forall i :: 0 <= i < |b| ==> (MatchesAt(p, t, n + i) <==> MatchesAt(p, b, i))
    ensures Hits(p, t) == Hits(p, t)[..n] + Hits(p, b)
  {
    var h, k := Hits(p, t), Hits(p, b);
    forall i | 0 <= i < |b|
      ensures h[n + i] == k[i]
    {
      assert MatchesAt(p, t, n + i) <==> MatchesAt(p, b, i);
    }
    assert h == h[..n] + h[n..];
    assert h[n..] == k;
  }

  lemma FrontHits(p: Pattern, a: string, b: string)
    requires forall i :: 0 <= i < |a| && MatchesAt(p, a + b, i) ==> MatchEnd(p, a + b, i) <= |a|
    ensures Hits(p, a + b)[..|a|] == Hits(p, a)
  {
    var t := a + b;
    forall i | 0 <= i < |a|
      ensures Hits(p, t)[i] == Hits(p, a)[i]
    {
      if MatchesAt(p, t, i) { MatchAgrees(p, t, a, |a|, i); }
      if MatchesAt(p, a, i) { MatchAgrees(p, a, t, |a|, i); }
    }
  }

  /** When no match that starts in `a` ends in `b`, the matches of `a + b` are those of the parts. */
  lemma MatchesJoin(p: Pattern, a: string, b: string)
    requires forall i :: 0 <= i < |a| && MatchesAt(p, a + b, i) ==> MatchEnd(p, a + b, i) <= |a|
    ensures Matches(p, a + b) == Matches(p, a) + Matches(p, b)
  {
    FrontHits(p, a, b);
    BackHits(p, a, b);
    CountJoins(Hits(p, a), Hits(p, b));
  }

  lemma QuietEnd(p: Pattern, a: string, z: string)
    requires Quiet(z)
    ensures Matches(p, a + z) == Matches(p, a)
  {
    var t := a + z;
    assert forall j :: |a| <= j < |t| ==> t[j] == z[j - |a|];
    forall i | 0 <= i < |a| && MatchesAt(p, t, i)
      ensures MatchEnd(p, t, i) <= |a|
    {
      MatchShape(p, t, i);
    }
    MatchesJoin(p, a, z);
    NoBraceNoMatch(p, z);
  }

  lemma QuietStart(p: Pattern, a: string, b: string)
    requires Lacks(a, '{')
    ensures Matches(p, a + b) == Matches(p, b)
  {
    var front := Hits(p, a + b)[..|a|];
    forall i | 0 <= i < |front|
      ensures !front[i]
    {
      NoMatchHere(p, a + b, i);
    }
    CountNone(front);
    BackHits(p, a, b);
    CountJoins(front, Hits(p, b));
  }

  /** No match crosses an equals sign. */
  lemma SplitAtEquals(p: Pattern, a: string, b: string)
    requires a != "" && a[|a| - 1] == '='
    ensures Matches(p, a + b) == Matches(p, a) + Matches(p, b)
  {
    var t := a + b;
    forall i | 0 <= i < |a| && MatchesAt(p, t, i)
      ensures MatchEnd(p, t, i) <= |a|
    {
      MatchShape(p, t, i);
      assert t[|a| - 1] == '=';
    }
    MatchesJoin(p, a, b);
  }

  // ---------- recognition is local ----------

  lemma NameAgrees(s: string, t: string, n: nat, i: nat)
    requires Agree(s, t, n) && i <= n && NameBeforeEquals(s, i, IdentStart).Some?
    requires SpaceEnd(s, IdentEnd(s, i)) < n
    ensures NameBeforeEquals(t, i, IdentStart) == NameBeforeEquals(s, i, IdentStart)
  {
    RunsAgree(s, t, n, i);
    RunsAgree(s, t, n, IdentEnd(s, i));
    assert s[i..IdentEnd(s, i)] == t[i..IdentEnd(s, i)];
  }

  lemma NameEndsAtFirstEquals(s: string, i: nat)
    requires i <= |s| && NameBeforeEquals(s, i, IdentStart).Some? && i <= Find(s, '=', 0)
    ensures SpaceEnd(s, IdentEnd(s, i)) == Find(s, '=', 0) < |s|
  {
    var e, k := Find(s, '=', 0), SpaceEnd(s, IdentEnd(s, i));
    assert s[k] == '=' && k >= i;
    assert forall j :: i <= j < k ==> s[j] != '=';
  }

  // ---------- the patterns, by the parts of what they match ----------

  /** KEY_RE */
  lemma KeyIff(line: string, name: string)
    ensures Key(line) == Some(name) <==> exists blanks, rest :: NamedBy(line, name, blanks, rest, IdentStart)
  {
    assert line[0..] == line;
    NameBeforeEqualsIff(line, 0, IdentStart, name);
  }

  ghost predicate AttrBy(line: string, indent: string, name: string, blanks: string, rest: string) {
    exists tail :: line == indent + "." + tail && AllSpace(indent) && NamedBy(tail, name, blanks, rest, IdentStart)
  }

  lemma AttrHasParts(line: string) returns (indent: string, name: string, blanks: string, rest: string)
    requires IsAttr(line)
    ensures AttrBy(line, indent, name, blanks, rest)
  {
    var i := SpaceEnd(line, 0);
    indent, name := line[..i], NameBeforeEquals(line, i + 1, IdentStart).value;
    blanks, rest := FoundHasParts(line, i + 1, IdentStart);
    AttrParts(line, i, name, blanks, rest);
  }

  lemma AttrParts(line: string, i: nat, name: string, blanks: string, rest: string)
    requires i < |line| && line[i] == '.' && AllSpace(line[..i]) && NamedBy(line[i + 1..], name, blanks, rest, IdentStart)
    ensures AttrBy(line, line[..i], name, blanks, rest)
  {
    assert line == line[..i] + "." + line[i + 1..];
  }

  lemma PartsAreAttr(line: string, indent: string, name: string, blanks: string, rest: string)
    requires AttrBy(line, indent, name, blanks, rest)
    ensures IsAttr(line)
  {
    var tail :| line == indent + "." + tail && AllSpace(indent) && NamedBy(tail, name, blanks, rest, IdentStart);
    var i := |indent|;
    assert line[i] == '.' && forall j :: 0 <= j < i ==> line[j] == indent[j];
    SpaceEndIs(line, 0, i);
    assert line[i + 1..] == tail;
    NamedIsFound(line, i + 1, name, blanks, rest, IdentStart);
  }

  /** ATTR_RE */
  lemma AttrIff(line: string)
    ensures IsAttr(line) <==> exists indent, name, blanks, rest :: AttrBy(line, indent, name, blanks, rest)
  {
    if IsAttr(line) {
      var indent, name, blanks, rest := AttrHasParts(line);
    }
    if indent, name, blanks, rest :| AttrBy(line, indent, name, blanks, rest) {
      PartsAreAttr(line, indent, name, blanks, rest);
    }
  }

  /** PLACEHOLDER_RE and SELECT_RE: a brace, blanks, `$` and an identifier, blanks, and the closing brace or an arrow. */
  predicate ArgumentBy(p: Pattern, t: string, before: string, name: string, after: string, rest: string) {
    && t == "{" + before + "$" + name + after + (if p.Placeholder? then "}" else "->") + rest
    && AllSpace(before) && name != "" && IdentStart(name[0]) && AllIdent(name) && AllSpace(after)
  }

  lemma MatchHasParts(p: Pattern, s: string, i: nat) returns (before: string, name: string, after: string, rest: string)
    requires MatchesAt(p, s, i)
    ensures ArgumentBy(p, s[i..], before, name, after, rest)
  {
    var j, last, end, m := MatchPlaces(p, s, i);
    before, name, after, rest := s[i + 1..j], s[j + 1..last], s[last..end], s[m..];
    SixPieces(s, i, j, last, end, m);
    assert [s[i]] == "{" && [s[j]] == "$";
  }

  /** Where the parts of a match stand. */
  lemma MatchPlaces(p: Pattern, s: string, i: nat) returns (j: nat, last: nat, end: nat, m: nat)
    requires MatchesAt(p, s, i)
    ensures i < j && j + 1 < last <= end <= m <= |s| && s[i] == '{' && s[j] == '$' && IdentStart(s[j + 1])
    ensures AllSpace(s[i + 1..j]) && AllIdent(s[j + 1..last]) && AllSpace(s[last..end])
    ensures s[end..m] == if p.Placeholder? then "}" else "->"
  {
    var n := VariableEnd(s, i);
    j := VariablePlaces(s, i);
    m := MatchEnd(p, s, i);
    last, end := MatchTail(p, s, i, n);
    var name := s[j + 1..n];
    assert s[j + 1..last] == name[..last - (j + 1)];
  }

  lemma VariablePlaces(s: string, i: nat) returns (j: nat)
    requires i <= |s| && VariableEnd(s, i) != 0
    ensures var n := VariableEnd(s, i);
            i < j && j + 1 < n && s[i] == '{' && s[j] == '$' && IdentStart(s[j + 1]) && AllSpace(s[i + 1..j]) && AllIdent(s[j + 1..n])
  {
    j := SpaceEnd(s, i + 1);
  }

  /** Where the identifier of a match and the blanks after it end, a hyphen given back. */
  lemma MatchTail(p: Pattern, s: string, i: nat, n: nat) returns (last: nat, end: nat)
    requires MatchesAt(p, s, i) && n == VariableEnd(s, i)
    ensures (n == last || (n == last + 1 && s[last] == '-')) && last <= end <= MatchEnd(p, s, i)
    ensures AllSpace(s[last..end]) && s[end..MatchEnd(p, s, i)] == if p.Placeholder? then "}" else "->"
  {
    var k := SpaceEnd(s, n);
    if p.Placeholder? || (k + 1 < |s| && s[k] == '-' && s[k + 1] == '>') {
      last, end := n, k;
    } else {
      last, end := n - 1, n - 1;
    }
  }

  lemma SixPieces(s: string, i: nat, j: nat, last: nat, end: nat, m: nat)
    requires i < j < last <= end <= m <= |s|
    ensures s[i..] == [s[i]] + s[i + 1..j] + [s[j]] + s[j + 1..last] + s[last..end] + s[end..m] + s[m..]
  {
  }

  lemma PartsMatch(p: Pattern, s: string, i: nat, before: string, name: string, after: string, rest: string)
    requires i <= |s| && ArgumentBy(p, s[i..], before, name, after, rest)
    ensures MatchesAt(p, s, i)
  {
    var j := i + 1 + |before|;
    var n := j + 1 + |name|;
    PiecesAt(p, s[i..], before, name, after, rest);
    assert forall x :: 0 <= x < |s[i..]| ==> s[i..][x] == s[i + x];
    PlacesMatch(p, s, i, j, n, n + |after|);
  }

  lemma PlacesMatch(p: Pattern, s: string, i: nat, j: nat, n: nat, k: nat)
    requires i < j && j + 1 < n <= k < |s| && s[i] == '{' && s[j] == '$' && IdentStart(s[j + 1])
    requires (forall x :: i + 1 <= x < j ==> IsSpace(s[x])) && (forall x :: j + 1 <= x < n ==> IsIdent(s[x])) && forall x :: n <= x < k ==> IsSpace(s[x])
    requires if p.Placeholder? then s[k] == '}' else k + 1 < |s| && s[k] == '-' && s[k + 1] == '>'
    ensures MatchesAt(p, s, i)
  {
    SpaceEndIs(s, i + 1, j);
    if n == k && p.Select? {
      IdentEndIs(s, j + 1, n + 1);
      TouchingArrow(s, i, n);
    } else {
      IdentEndIs(s, j + 1, n) by {
        if n < k { SpaceIsNoIdent(s[n]); }
      }
      SpaceEndIs(s, n, k);
      ClosedMatch(p, s, i, n, k);
    }
  }

  /** The identifier took the hyphen of the arrow. */
  lemma TouchingArrow(s: string, i: nat, n: nat)
    requires i < |s| && s[i] == '{' && VariableEnd(s, i) == n + 1 && n + 1 < |s| && s[n] == '-' && s[n + 1] == '>'
    ensures MatchesAt(Select, s, i)
  {
    SpaceEndIs(s, n + 1, n + 1);
  }

  lemma ClosedMatch(p: Pattern, s: string, i: nat, n: nat, k: nat)
    requires i < |s| && s[i] == '{' && 0 < n == VariableEnd(s, i) && n <= k == SpaceEnd(s, n) < |s|
    requires if p.Placeholder? then s[k] == '}' else k + 1 < |s| && s[k] == '-' && s[k + 1] == '>'
    ensures MatchesAt(p, s, i)
  {
  }

  lemma PiecesAt(p: Pattern, t: string, before: string, name: string, after: string, rest: string)
    requires ArgumentBy(p, t, before, name, after, rest)
    ensures var j := 1 + |before|;
            var n := j + 1 + |name|;
            var k := n + |after|;
            && k < |t| && t[0] == '{' && t[j] == '$'
            && (forall x :: 1 <= x < j ==> t[x] == before[x - 1])
            && (forall x :: j + 1 <= x < n ==> t[x] == name[x - j - 1])
            && (forall x :: n <= x < k ==> t[x] == after[x - n])
            && if p.Placeholder? then t[k] == '}' else k + 1 < |t| && t[k] == '-' && t[k + 1] == '>'
  {
  }

  lemma MatchesAtIff(p: Pattern, s: string, i: nat)
    requires i <= |s|
    ensures MatchesAt(p, s, i) <==> exists before, name, after, rest :: ArgumentBy(p, s[i..], before, name, after, rest)
  {
    if MatchesAt(p, s, i) {
      var before, name, after, rest := MatchHasParts(p, s, i);
    }
    if before, name, after, rest :| ArgumentBy(p, s[i..], before, name, after, rest) {
      PartsMatch(p, s, i, before, name, after, rest);
    }
  }
}
