/**
  The three source masks of scripts/verify-architecture-boundaries.py.  Two of
  them blank comments, with and without the string contents; the third blanks
  everything but the comments.
 */
module Masks {
  import opened Sequences

  /** What a scanner is inside of. */
  datatype Mode = Code | Str(quote: char) | Block | Line

  predicate Starts(t: string, a: char, b: char) {
    |t| >= 2 && t[0] == a && t[1] == b
  }

  predicate IsQuote(c: char) {
    c == '\'' || c == '"' || c == '`'
  }

  function Blank(c: char): char {
    if c == '\n' then '\n' else ' '
  }

  /** How many characters the scanners take at once, and the mode they are in afterwards. */
  function Take(t: string, m: Mode): (r: (nat, Mode))
    requires t != ""
    ensures 1 <= r.0 <= |t|
  {
    match m
    case Block => if Starts(t, '*', '/') then (2, Code) else (1, Block)
    case Str(q) =>
      if t[0] == '\\' && |t| >= 2 then (2, m) else (1, if t[0] == q then Code else m)
    case Line => (1, if t[0] == '\n' then Code else Line)
    case Code =>
      if IsQuote(t[0]) then (1, Str(t[0]))
      else if Starts(t, '/', '/') then (2, Line)
      else if Starts(t, '/', '*') then (2, Block)
      else (1, Code)
  }

  /** What `mask_comments_and_strings` writes for the characters taken. */
  function MaskHead(t: string, m: Mode): (head: string)
    requires t != ""
    ensures |head| == Take(t, m).0
  {
    if Take(t, m).0 == 2 then "  "
    else if !m.Code? then [Blank(t[0])]
    else if IsQuote(t[0]) then " "
    else [t[0]]
  }

  /** What `strip_comments_preserving_strings` writes for them. */
  function StripHead(t: string, m: Mode): (head: string)
    requires t != ""
    ensures |head| == Take(t, m).0
  {
    if m.Str? && Take(t, m).0 == 2 then [t[0], t[1]]
    else if m.Str? || (m.Code? && Take(t, m).0 == 1) then [t[0]]
    else MaskHead(t, m)
  }

  /** The result from a point of the text reached in mode `m`. */
  function Mask(t: string, m: Mode): string {
    if t == "" then "" else MaskHead(t, m) + Mask(t[Take(t, m).0..], Take(t, m).1)
  }

  function Strip(t: string, m: Mode): string {
    if t == "" then "" else StripHead(t, m) + Strip(t[Take(t, m).0..], Take(t, m).1)
  }

  // ---------- the loops ----------

  function Spaces(n: nat): (s: string)
    ensures |s| == n
  {
    if n == 0 then "" else " " + Spaces(n - 1)
  }

  lemma {:induction false} LineIsBlanked(text: string, from: nat, end: nat)
    requires from <= end <= |text| && (forall k :: from <= k < end ==> text[k] != '\n') && (end < |text| ==> text[end] == '\n')
    ensures Mask(text[from..], Line) == Spaces(end - from) + Mask(text[end..], Code)
    ensures Strip(text[from..], Line) == Spaces(end - from) + Strip(text[end..], Code)
    decreases end - from
  {
    if from == end {
    } else {
      assert text[from..][1..] == text[from + 1..];
      LineIsBlanked(text, from + 1, end);
      OneMoreSpace(end - from, Mask(text[end..], Code), Strip(text[end..], Code));
    }
  }

  lemma OneMoreSpace(n: nat, a: string, b: string)
    requires n > 0
    ensures Spaces(n) + a == " " + (Spaces(n - 1) + a) && Spaces(n) + b == " " + (Spaces(n - 1) + b)
  {
  }

  /** The loop over the rest of a line comment. */
  method LineEnd(text: string, from: nat) returns (i: nat)
    requires from <= |text|
    ensures from <= i <= |text| && (forall k :: from <= k < i ==> text[k] != '\n') && (i < |text| ==> text[i] == '\n')
  {
    i := from;
    while i < |text| && text[i] != '\n'
      invariant from <= i <= |text| && forall k :: from <= k < i ==> text[k] != '\n'
    {
      i := i + 1;
    }
  }

  /** One turn of the loop inside a block comment. */
  method MaskInBlock(text: string, i: nat) returns (piece: string, j: nat, mode: Mode)
    requires i < |text|
    ensures i < j <= |text| && !mode.Line? && piece + Mask(text[j..], mode) == Mask(text[i..], Block)
  {
    assert text[i..][1..] == text[i + 1..];
    if text[i] == '*' && i + 1 < |text| && text[i + 1] == '/' {
      assert text[i..][2..] == text[i + 2..];
      piece, j, mode := "  ", i + 2, Code;
    } else {
      piece, j, mode := if text[i] == '\n' then "\n" else " ", i + 1, Block;
    }
  }

  method MaskInString(text: string, i: nat, inString: char) returns (piece: string, j: nat, mode: Mode)
    requires i < |text|
    ensures i < j <= |text| && !mode.Line? && piece + Mask(text[j..], mode) == Mask(text[i..], Str(inString))
  {
    assert text[i..][1..] == text[i + 1..];
    if text[i] == '\\' && i + 1 < |text| {
      assert text[i..][2..] == text[i + 2..] && text[i..][1] == text[i + 1];
      piece, j, mode := "  ", i + 2, Str(inString);
    } else {
      piece, j, mode := if text[i] == '\n' then "\n" else " ", i + 1, if text[i] == inString then Code else Str(inString);
    }
  }

  lemma LineCommentIsMasked(text: string, i: nat, j: nat)
    requires i + 2 <= j <= |text| && text[i] == '/' && text[i + 1] == '/'
    requires (forall k :: i + 2 <= k < j ==> text[k] != '\n') && (j < |text| ==> text[j] == '\n')
    ensures "  " + Spaces(j - (i + 2)) + Mask(text[j..], Code) == Mask(text[i..], Code)
  {
    assert text[i..][2..] == text[i + 2..];
    LineIsBlanked(text, i + 2, j);
    Regroup("  ", Spaces(j - (i + 2)), Mask(text[j..], Code));
  }

  method MaskInCode(text: string, i: nat) returns (piece: string, j: nat, mode: Mode)
    requires i < |text|
    ensures i < j <= |text| && !mode.Line? && piece + Mask(text[j..], mode) == Mask(text[i..], Code)
  {
    var c := text[i];
    assert text[i..][1..] == text[i + 1..];
    if IsQuote(c) {
      piece, j, mode := " ", i + 1, Str(c);
    } else if c == '/' && i + 1 < |text| && text[i + 1] == '/' {
      j := LineEnd(text, i + 2);
      LineCommentIsMasked(text, i, j);
      piece, mode := "  " + Spaces(j - (i + 2)), Code;
    } else if c == '/' && i + 1 < |text| && text[i + 1] == '*' {
      assert text[i..][2..] == text[i + 2..];
      piece, j, mode := "  ", i + 2, Block;
    } else {
      piece, j, mode := [c], i + 1, Code;
    }
  }

  /** `mode` is the source's pair of variables `in_string` and `in_block`. */
  method MaskCommentsAndStrings(text: string) returns (out: string)
    ensures out == Mask(text, Code)
  {
    out := "";
    var i := 0;
    var mode := Code;
    while i < |text|
      invariant 0 <= i <= |text| && !mode.Line? && out + Mask(text[i..], mode) == Mask(text, Code)
    {
      var piece, j, next;
      match mode {
        case Block => piece, j, next := MaskInBlock(text, i);
        case Str(q) => piece, j, next := MaskInString(text, i, q);
        case Code => piece, j, next := MaskInCode(text, i);
      }
      Regroup(out, piece, Mask(text[j..], next));
      out, i, mode := out + piece, j, next;
    }
    assert text[i..] == "";
  }

  /** One turn of the loop inside a block comment. */
  method StripInBlock(text: string, i: nat) returns (piece: string, j: nat, mode: Mode)
    requires i < |text|
    ensures i < j <= |text| && !mode.Line? && piece + Strip(text[j..], mode) == Strip(text[i..], Block)
  {
    assert text[i..][1..] == text[i + 1..];
    if text[i] == '*' && i + 1 < |text| && text[i + 1] == '/' {
      assert text[i..][2..] == text[i + 2..];
      piece, j, mode := "  ", i + 2, Code;
    } else {
      piece, j, mode := if text[i] == '\n' then "\n" else " ", i + 1, Block;
    }
  }

  method StripInString(text: string, i: nat, inString: char) returns (piece: string, j: nat, mode: Mode)
    requires i < |text|
    ensures i < j <= |text| && !mode.Line? && piece + Strip(text[j..], mode) == Strip(text[i..], Str(inString))
  {
    assert text[i..][1..] == text[i + 1..];
    if text[i] == '\\' && i + 1 < |text| {
      assert text[i..][2..] == text[i + 2..] && text[i..][1] == text[i + 1];
      piece, j, mode := [text[i], text[i + 1]], i + 2, Str(inString);
    } else {
      piece, j, mode := [text[i]], i + 1, if text[i] == inString then Code else Str(inString);
    }
  }

  method StripInCode(text: string, i: nat) returns (piece: string, j: nat, mode: Mode)
    requires i < |text|
    ensures i < j <= |text| && !mode.Line? && piece + Strip(text[j..], mode) == Strip(text[i..], Code)
  {
    var c := text[i];
    assert text[i..][1..] == text[i + 1..];
    if IsQuote(c) {
      piece, j, mode := [c], i + 1, Str(c);
    } else if c == '/' && i + 1 < |text| && text[i + 1] == '/' {
      j := LineEnd(text, i + 2);
      StrippedLine(text, i, j);
      piece, mode := "  " + Spaces(j - (i + 2)), Code;
    } else if c == '/' && i + 1 < |text| && text[i + 1] == '*' {
      assert text[i..][2..] == text[i + 2..];
      piece, j, mode := "  ", i + 2, Block;
    } else {
      piece, j, mode := [c], i + 1, Code;
    }
  }

  lemma StrippedLine(text: string, i: nat, j: nat)
    requires i + 2 <= j <= |text| && Starts(text[i..], '/', '/')
    requires (forall k :: i + 2 <= k < j ==> text[k] != '\n') && (j < |text| ==> text[j] == '\n')
    ensures "  " + Spaces(j - (i + 2)) + Strip(text[j..], Code) == Strip(text[i..], Code)
  {
    assert text[i..][2..] == text[i + 2..];
    StripOpensLine(text[i..]);
    LineIsBlanked(text, i + 2, j);
    Chain("  ", Spaces(j - (i + 2)), Strip(text[j..], Code), Strip(text[i + 2..], Line));
  }

  lemma Chain(a: string, b: string, c: string, bc: string)
    requires bc == b + c
    ensures a + bc == a + b + c
  {
  }

  lemma StripOpensLine(t: string)
    requires Starts(t, '/', '/')
    ensures Strip(t, Code) == "  " + Strip(t[2..], Line)
  {
  }

  /** `mode` is the source's pair of variables `in_string` and `in_block`. */
  method StripCommentsPreservingStrings(text: string) returns (out: string)
    ensures out == Strip(text, Code)
  {
    out := "";
    var i := 0;
    var mode := Code;
    while i < |text|
      invariant 0 <= i <= |text| && !mode.Line? && out + Strip(text[i..], mode) == Strip(text, Code)
    {
      var piece, j, next;
      match mode {
        case Block => piece, j, next := StripInBlock(text, i);
        case Str(q) => piece, j, next := StripInString(text, i, q);
        case Code => piece, j, next := StripInCode(text, i);
      }
      Regroup(out, piece, Strip(text[j..], next));
      out, i, mode := out + piece, j, next;
    }
    assert text[i..] == "";
  }

  // ---------- offsets ----------

  /** Same length, and each character is the input's or a space. */
  ghost predicate Blanks(t: string, out: string) {
    |out| == |t| && forall i :: 0 <= i < |t| ==> out[i] == t[i] || out[i] == ' '
  }

  ghost predicate KeepsNewlines(t: string, out: string) {
    |out| == |t| && forall i :: 0 <= i < |t| && t[i] == '\n' ==> out[i] == '\n'
  }

  lemma BlanksJoin(a: string, b: string, x: string, y: string)
    requires |a| == |x|
    ensures Blanks(a, x) && Blanks(b, y) ==> Blanks(a + b, x + y)
    ensures |b| == |y| ==> (KeepsNewlines(a + b, x + y) <==> KeepsNewlines(a, x) && KeepsNewlines(b, y))
  {
    if |b| == |y| && KeepsNewlines(a + b, x + y) {
      forall i | 0 <= i < |a| && a[i] == '\n' ensures x[i] == '\n' { assert (a + b)[i] == a[i] && (x + y)[i] == x[i]; }
      forall i | 0 <= i < |b| && b[i] == '\n' ensures y[i] == '\n' { assert (a + b)[|a| + i] == b[i] && (x + y)[|a| + i] == y[i]; }
    }
  }

  /** Somewhere a backslash inside a string is followed by a line break. */
  ghost predicate EscapesNewline(t: string, m: Mode) {
    t != "" && ((m.Str? && Take(t, m).0 == 2 && t[1] == '\n') || EscapesNewline(t[Take(t, m).0..], Take(t, m).1))
  }

  /** Length and every offset are preserved, whatever the text. */
  lemma {:induction false} MaskBlanks(t: string, m: Mode)
    ensures Blanks(t, Mask(t, m))
    decreases |t|
  {
    if t != "" {
      var (n, next) := Take(t, m);
      MaskBlanks(t[n..], next);
      assert t == t[..n] + t[n..] && Mask(t, m) == Mask(t, m)[..n] + Mask(t[n..], next);
      BlanksJoin(t[..n], t[n..], Mask(t, m)[..n], Mask(t[n..], next));
    }
  }

  lemma {:induction false} StripBlanks(t: string, m: Mode)
    ensures Blanks(t, Strip(t, m)) && KeepsNewlines(t, Strip(t, m))
    decreases |t|
  {
    if t != "" {
      var (n, next) := Take(t, m);
      StripBlanks(t[n..], next);
      StripHeadBlanks(t, m);
      assert t == t[..n] + t[n..];
      BlanksJoin(t[..n], t[n..], StripHead(t, m), Strip(t[n..], next));
    }
  }

  lemma StripHeadBlanks(t: string, m: Mode)
    requires t != ""
    ensures var n := Take(t, m).0; Blanks(t[..n], StripHead(t, m)) && KeepsNewlines(t[..n], StripHead(t, m))
  {
    if Take(t, m).0 == 2 {
      assert t[..2] == [t[0], t[1]];
    } else {
      assert t[..1] == [t[0]];
    }
  }

  /** The mask keeps every line break exactly when no string escapes one. */
  lemma {:induction false} MaskKeepsNewlinesIff(t: string, m: Mode)
    ensures KeepsNewlines(t, Mask(t, m)) <==> !EscapesNewline(t, m)
    decreases |t|
  {
    if t != "" {
      var (n, next) := Take(t, m);
      MaskBlanks(t[n..], next);
      MaskKeepsNewlinesIff(t[n..], next);
      HeadKeepsNewlinesIff(t, m);
      assert t == t[..n] + t[n..];
      BlanksJoin(t[..n], t[n..], MaskHead(t, m), Mask(t[n..], next));
    }
  }

  lemma HeadKeepsNewlinesIff(t: string, m: Mode)
    requires t != ""
    ensures var n := Take(t, m).0;
            Blanks(t[..n], MaskHead(t, m)) && (KeepsNewlines(t[..n], MaskHead(t, m)) <==> !(n == 2 && m.Str? && t[1] == '\n'))
  {
    if Take(t, m).0 == 2 {
      assert t[..2] == [t[0], t[1]];
    } else {
      assert t[..1] == [t[0]];
    }
  }

  // ---------- agreement ----------

  /** Where the stripped text stands in mode `m`: comments have become blanks. */
  function Shown(m: Mode): Mode {
    if m.Block? || m.Line? then Code else m
  }

  /** A space or line break is code to every scanner. */
  lemma BlankIsCode(c: char, s: string)
    requires c == ' ' || c == '\n'
    ensures Mask([c] + s, Code) == [c] + Mask(s, Code)
    ensures Strip([c] + s, Code) == [c] + Strip(s, Code)
  {
    assert ([c] + s)[1..] == s;
  }

  lemma BlanksAreCode(s: string)
    ensures Mask("  " + s, Code) == "  " + Mask(s, Code)
    ensures Strip("  " + s, Code) == "  " + Strip(s, Code)
  {
    BlankIsCode(' ', s);
    BlankIsCode(' ', " " + s);
    TwoBlanks(s);
    TwoBlanks(Mask(s, Code));
    TwoBlanks(Strip(s, Code));
  }

  lemma TwoBlanks(s: string)
    ensures "  " + s == " " + (" " + s)
  {
  }

  /** Prepending what the strip wrote for one token: the full mask reads the same token there. */
  lemma TokenAgrees(t: string, m: Mode, s: string)
    requires t != "" && s == Strip(t[Take(t, m).0..], Take(t, m).1)
    ensures Mask(StripHead(t, m) + s, Shown(m)) == MaskHead(t, m) + Mask(s, Shown(Take(t, m).1))
    ensures Strip(StripHead(t, m) + s, Shown(m)) == StripHead(t, m) + Strip(s, Shown(Take(t, m).1))
  {
    var (n, next) := Take(t, m);
    StripBlanks(t[n..], next);
    match m {
      case Block => if n == 2 { BlanksAreCode(s); } else { BlankIsCode(Blank(t[0]), s); }
      case Line => BlankIsCode(Blank(t[0]), s);
      case Str(q) =>
      case Code => CodeTokenAgrees(t, s);
    }
  }

  lemma CodeTokenAgrees(t: string, s: string)
    requires t != "" && s == Strip(t[Take(t, Code).0..], Take(t, Code).1)
    ensures Mask(StripHead(t, Code) + s, Code) == MaskHead(t, Code) + Mask(s, Shown(Take(t, Code).1))
    ensures Strip(StripHead(t, Code) + s, Code) == StripHead(t, Code) + Strip(s, Shown(Take(t, Code).1))
  {
    if Take(t, Code).0 == 2 {
      BlanksAreCode(s);
    } else {
      assert ([t[0]] + s)[1..] == s;
    }
  }

  /** Blanking the comments first changes nothing that the full mask shows. */
  lemma {:induction false} MaskAfterStrip(t: string, m: Mode)
    ensures Mask(Strip(t, m), Shown(m)) == Mask(t, m)
    decreases |t|
  {
    if t != "" {
      var (n, next) := Take(t, m);
      MaskAfterStrip(t[n..], next);
      TokenAgrees(t, m, Strip(t[n..], next));
    }
  }

  lemma {:induction false} StripIdempotent(t: string, m: Mode)
    ensures Strip(Strip(t, m), Shown(m)) == Strip(t, m)
    decreases |t|
  {
    if t != "" {
      var (n, next) := Take(t, m);
      StripIdempotent(t[n..], next);
      TokenAgrees(t, m, Strip(t[n..], next));
    }
  }

  lemma {:induction false} MaskIdempotent(t: string, m: Mode)
    ensures Mask(Mask(t, m), Code) == Mask(t, m)
    decreases |t|
  {
    if t != "" {
      var (n, next) := Take(t, m);
      var s := Mask(t[n..], next);
      MaskIdempotent(t[n..], next);
      if n == 2 {
        BlanksAreCode(s);
      } else if m.Code? && !IsQuote(t[0]) {
        MaskBlanks(t[n..], next);
      } else {
        BlankIsCode(if m.Code? then ' ' else Blank(t[0]), s);
      }
    }
  }
}
