/**
  The string operations of Python that the Fluent scripts use: line splitting,
  stripping, and the small anchored patterns, each as the recognizer of exactly
  the lines its regular expression matches.  Carriage returns are assumed to
  have been translated, as reading in text mode does.
 */
module PyText {

  datatype Option<T> = None | Some(value: T)

  /** str.isspace, which is also what \s matches. */
  predicate IsSpace(c: char) {
    var n := c as int;
    9 <= n <= 13 || 28 <= n <= 32 || n == 0x85 || n == 0xA0 || n == 0x1680 || 0x2000 <= n <= 0x200A
    || n == 0x2028 || n == 0x2029 || n == 0x202F || n == 0x205F || n == 0x3000
  }

  /** Where str.splitlines breaks. */
  predicate IsBreak(c: char) {
    var n := c as int;
    10 <= n <= 12 || 28 <= n <= 30 || n == 0x85 || n == 0x2028 || n == 0x2029
  }

  predicate NoBreak(s: string) {
    forall i :: 0 <= i < |s| ==> !IsBreak(s[i])
  }

  function FirstLine(t: string): (n: nat)
    requires t != ""
    ensures 1 <= n <= |t| && NoBreak(t[..n - 1])
    ensures IsBreak(t[n - 1]) || n == |t|
  {
    if IsBreak(t[0]) || |t| == 1 then 1
    else
      var n := FirstLine(t[1..]) + 1;
      assert t[..n - 1] == [t[0]] + t[1..][..n - 2];
      n
  }

  /** splitlines(keepends=True) */
  function SplitLines(t: string): seq<string> {
    if t == "" then [] else [t[..FirstLine(t)]] + SplitLines(t[FirstLine(t)..])
  }

  function Join(parts: seq<string>): string {
    if parts == [] then "" else parts[0] + Join(parts[1..])
  }

  /** A line as splitlines yields it; only the last one may lack its line break. */
  predicate IsLine(s: string) {
    s != "" && NoBreak(s[..|s| - 1])
  }

  predicate Ended(s: string) {
    s != "" && IsBreak(s[|s| - 1])
  }

  predicate AreLines(lines: seq<string>) {
    forall i :: 0 <= i < |lines| ==> IsLine(lines[i]) && (i < |lines| - 1 ==> Ended(lines[i]))
  }

  lemma {:induction false} SplitIsLines(t: string)
    ensures AreLines(SplitLines(t)) && Join(SplitLines(t)) == t
    decreases |t|
  {
    if t != "" {
      var n := FirstLine(t);
      SplitIsLines(t[n..]);
      FirstAndRest(t, n, SplitLines(t[n..]));
    }
  }

  lemma FirstAndRest(t: string, n: nat, lines: seq<string>)
    requires t != "" && n == FirstLine(t) && AreLines(lines) && Join(lines) == t[n..] && (t[n..] == "" ==> lines == [])
    ensures AreLines([t[..n]] + lines) && Join([t[..n]] + lines) == t
  {
    FirstIsLine(t);
    ConsIsLines(t[..n], lines);
    ConsJoins(t[..n], lines);
  }

  lemma FirstIsLine(t: string)
    requires t != ""
    ensures var n := FirstLine(t); IsLine(t[..n]) && (t[n..] != "" ==> Ended(t[..n]))
  {
    var n := FirstLine(t);
    assert t[..n][..n - 1] == t[..n - 1];
  }

  lemma ConsJoins(line: string, lines: seq<string>)
    ensures Join([line] + lines) == line + Join(lines)
  {
    assert ([line] + lines)[1..] == lines;
  }

  lemma ConsIsLines(line: string, lines: seq<string>)
    requires IsLine(line) && AreLines(lines) && (lines != [] ==> Ended(line))
    ensures AreLines([line] + lines)
  {
  }

  lemma FirstLineOf(line: string, rest: string)
    requires IsLine(line) && (rest != "" ==> Ended(line))
    ensures FirstLine(line + rest) == |line|
    decreases |line|
  {
    var t := line + rest;
    if |line| > 1 {
      assert line[..|line| - 1][0] == line[0];
      assert t[1..] == line[1..] + rest;
      assert line[1..][..|line| - 2] == line[..|line| - 1][1..];
      FirstLineOf(line[1..], rest);
    }
  }

  lemma {:induction false} SplitOfJoin(lines: seq<string>)
    requires AreLines(lines)
    ensures SplitLines(Join(lines)) == lines
    decreases |lines|
  {
    if lines != [] {
      var rest := lines[1..];
      assert forall i :: 0 <= i < |rest| ==> rest[i] == lines[i + 1];
      SplitOfJoin(rest);
      if rest == [] { assert Join(rest) == ""; }
      FirstLineOf(lines[0], Join(rest));
      assert (lines[0] + Join(rest))[|lines[0]|..] == Join(rest);
    }
  }

  lemma {:induction false} JoinAppend(a: seq<string>, b: seq<string>)
    ensures Join(a + b) == Join(a) + Join(b)
  {
    if a == [] {
      assert a + b == b;
    } else {
      assert (a + b)[1..] == a[1..] + b;
      JoinAppend(a[1..], b);
      assert a[0] + (Join(a[1..]) + Join(b)) == a[0] + Join(a[1..]) + Join(b);
    }
  }

  // ---------- runs ----------

  predicate IsLetter(c: char) {
    'a' <= c <= 'z' || 'A' <= c <= 'Z'
  }

  /** [a-zA-Z0-9_-] */
  predicate IsIdent(c: char) {
    IsLetter(c) || '0' <= c <= '9' || c == '_' || c == '-'
  }

  /** The classes of characters, by their codes. */
  lemma CodesAre(c: char)
    ensures var n := c as int;
            && (IsLetter(c) <==> 65 <= n < 91 || 97 <= n < 123)
            && (IsIdent(c) <==> IsLetter(c) || 48 <= n < 58 || n == 95 || n == 45)
            && (IsSpace(c) <==> n in {9, 10, 11, 12, 13, 28, 29, 30, 31, 32, 133, 160, 5760, 8232, 8233, 8239, 8287, 12288} || 8192 <= n < 8203)
            && (IsBreak(c) <==> n in {10, 11, 12, 28, 29, 30, 133, 8232, 8233})
  {
  }

  /** The end of the run of white space that starts at `i`. */
  function SpaceEnd(s: string, i: nat): (k: nat)
    requires i <= |s|
    ensures i <= k <= |s| && (k < |s| ==> !IsSpace(s[k])) && forall j :: i <= j < k ==> IsSpace(s[j])
    decreases |s| - i
  {
    if i == |s| || !IsSpace(s[i]) then i else SpaceEnd(s, i + 1)
  }

  /** The end of the run of identifier characters that starts at `i`. */
  function IdentEnd(s: string, i: nat): (k: nat)
    requires i <= |s|
    ensures i <= k <= |s| && (k < |s| ==> !IsIdent(s[k])) && forall j :: i <= j < k ==> IsIdent(s[j])
    decreases |s| - i
  {
    if i == |s| || !IsIdent(s[i]) then i else IdentEnd(s, i + 1)
  }

  /** Where `c` first occurs, or the length of the string. */
  function Find(s: string, c: char, i: nat): (k: nat)
    requires i <= |s|
    ensures i <= k <= |s| && (k < |s| ==> s[k] == c) && forall j :: i <= j < k ==> s[j] != c
    decreases |s| - i
  {
    if i == |s| || s[i] == c then i else Find(s, c, i + 1)
  }

  // ---------- stripping ----------

  function LStrip(s: string): string {
    s[SpaceEnd(s, 0)..]
  }

  function RStrip(s: string): (r: string)
    ensures |r| <= |s| && s[..|r|] == r && (r != "" ==> !IsSpace(r[|r| - 1]))
    ensures forall i :: |r| <= i < |s| ==> IsSpace(s[i])
  {
    if s == "" || !IsSpace(s[|s| - 1]) then s else RStrip(s[..|s| - 1])
  }

  /** strip() == "" */
  predicate IsBlank(s: string) {
    SpaceEnd(s, 0) == |s|
  }

  /** lstrip().startswith("#") */
  predicate IsComment(s: string) {
    var i := SpaceEnd(s, 0);
    i < |s| && s[i] == '#'
  }

  predicate StartsWith(s: string, prefix: string) {
    |prefix| <= |s| && s[..|prefix|] == prefix
  }

  /** `IDENT\s*=` at position `i`, for an identifier whose first character is acceptable. */
  function NameBeforeEquals(s: string, i: nat, first: char -> bool): Option<string>
    requires i <= |s|
  {
    if i == |s| || !first(s[i]) || !IsIdent(s[i]) then None
    else
      var n := IdentEnd(s, i);
      var k := SpaceEnd(s, n);
      if k < |s| && s[k] == '=' then Some(s[i..n]) else None
  }

  // ---------- the pattern, by the parts of what it matches ----------

  predicate AllSpace(s: string) {
    forall i :: 0 <= i < |s| ==> IsSpace(s[i])
  }

  predicate AllIdent(s: string) {
    forall i :: 0 <= i < |s| ==> IsIdent(s[i])
  }

  /** `s` is an identifier, blanks, an equals sign and anything. */
  predicate NamedBy(s: string, name: string, blanks: string, rest: string, first: char -> bool) {
    s == name + blanks + "=" + rest && name != "" && first(name[0]) && AllIdent(name) && AllSpace(blanks)
  }

  lemma {:induction false} SpaceEndIs(s: string, i: nat, k: nat)
    requires i <= k <= |s| && (k < |s| ==> !IsSpace(s[k])) && forall j :: i <= j < k ==> IsSpace(s[j])
    ensures SpaceEnd(s, i) == k
    decreases k - i
  {
    if i < k { SpaceEndIs(s, i + 1, k); }
  }

  lemma {:induction false} IdentEndIs(s: string, i: nat, k: nat)
    requires i <= k <= |s| && (k < |s| ==> !IsIdent(s[k])) && forall j :: i <= j < k ==> IsIdent(s[j])
    ensures IdentEnd(s, i) == k
    decreases k - i
  {
    if i < k { IdentEndIs(s, i + 1, k); }
  }

  lemma NamedIsFound(s: string, i: nat, name: string, blanks: string, rest: string, first: char -> bool)
    requires i <= |s| && NamedBy(s[i..], name, blanks, rest, first)
    ensures NameBeforeEquals(s, i, first) == Some(name)
  {
    var n, k := i + |name|, i + |name| + |blanks|;
    NamedPlaces(s, i, name, blanks, rest);
    assert !IsIdent(s[n]) by { SpaceIsNoIdent(s[n]); }
    IdentEndIs(s, i, n);
    SpaceEndIs(s, n, k);
  }

  lemma NamedPlaces(s: string, i: nat, name: string, blanks: string, rest: string)
    requires i <= |s| && s[i..] == name + blanks + "=" + rest
    ensures var n, k := i + |name|, i + |name| + |blanks|;
            && n <= k < |s| && s[i..n] == name && s[k] == '=' && s[n] == (if blanks == "" then '=' else blanks[0])
            && (forall j :: i <= j < n ==> s[j] == name[j - i]) && forall j :: n <= j < k ==> s[j] == blanks[j - n]
  {
    var t, n, k := s[i..], i + |name|, i + |name| + |blanks|;
    assert forall j :: i <= j < n ==> s[j] == t[j - i] == name[j - i];
    assert forall j :: n <= j < k ==> s[j] == t[j - i] == blanks[j - n];
    assert s[k] == t[k - i] == '=';
  }

  lemma SpaceIsNoIdent(c: char)
    ensures IsSpace(c) || c == '=' ==> !IsIdent(c)
  {
  }

  lemma FoundHasParts(s: string, i: nat, first: char -> bool) returns (blanks: string, rest: string)
    requires i <= |s| && NameBeforeEquals(s, i, first).Some?
    ensures NamedBy(s[i..], NameBeforeEquals(s, i, first).value, blanks, rest, first)
  {
    var n := IdentEnd(s, i);
    var k := SpaceEnd(s, n);
    blanks, rest := s[n..k], s[k + 1..];
    FourSlices(s, i, n, k);
    assert [s[k]] == "=";
  }

  lemma FourSlices(s: string, i: nat, n: nat, k: nat)
    requires i <= n <= k < |s|
    ensures s[i..] == s[i..n] + s[n..k] + [s[k]] + s[k + 1..]
  {
  }

  /** `IDENT\s*=` matches at `i` exactly when what stands there is an identifier, blanks and an equals sign. */
  lemma NameBeforeEqualsIff(s: string, i: nat, first: char -> bool, name: string)
    requires i <= |s|
    ensures NameBeforeEquals(s, i, first) == Some(name) <==> exists blanks, rest :: NamedBy(s[i..], name, blanks, rest, first)
  {
    if NameBeforeEquals(s, i, first) == Some(name) {
      var blanks, rest := FoundHasParts(s, i, first);
    }
    if blanks, rest :| NamedBy(s[i..], name, blanks, rest, first) {
      NamedIsFound(s, i, name, blanks, rest, first);
    }
  }
}
