/**
  `mask_code_preserving_comments` of scripts/verify-architecture-boundaries.py,
  and how it divides a text with `mask_comments_and_strings`.
 */
module CommentMask {
  import opened Sequences
  import opened Masks

  /** Block comments nest here, so their depth is counted. */
  datatype Place = InCode | InStr(quote: char) | Nest(depth: nat) | InLine

  /** The length of the character literal at the start of `t`, or 0: a quote, one character (or a
      backslash and one character other than a line break), a quote. */
  function CharLiteral(t: string): (n: nat)
    requires t != "" && t[0] == '\''
    ensures n <= |t|
  {
    if |t| >= 4 && t[1] == '\\' && t[2] != '\n' && t[3] == '\'' then 4
    else if |t| >= 3 && t[1] != '\\' && t[1] != '\'' && t[2] == '\'' then 3
    else 0
  }

  function Take2(t: string, p: Place): (r: (nat, Place))
    requires t != ""
    ensures 1 <= r.0 <= |t|
  {
    match p
    case Nest(d) =>
      if Starts(t, '/', '*') then (2, Nest(d + 1))
      else if Starts(t, '*', '/') then (2, if d <= 1 then InCode else Nest(d - 1))
      else (1, p)
    case InStr(q) =>
      if t[0] == '\\' && |t| >= 2 then (2, p) else (1, if t[0] == q then InCode else p)
    case InLine => (1, if t[0] == '\n' then InCode else InLine)
    case InCode =>
      if Starts(t, '/', '/') then (1, InLine)
      else if Starts(t, '/', '*') then (2, Nest(1))
      else if t[0] == '"' || t[0] == '`' then (1, InStr(t[0]))
      else if t[0] == '\'' then (if CharLiteral(t) == 0 then 1 else CharLiteral(t), InCode)
      else (1, InCode)
  }

  function Head2(t: string, p: Place): (head: string)
    requires t != ""
    ensures |head| == Take2(t, p).0
  {
    if Take2(t, p).0 >= 2 then Spaces(Take2(t, p).0)
    else if p.Nest? || p.InLine? || (p.InCode? && Starts(t, '/', '/')) then [t[0]]
    else if p.InCode? && t[0] in {'"', '`', '\''} then " "
    else [Blank(t[0])]
  }

  function Comments(t: string, p: Place): string {
    if t == "" then "" else Head2(t, p) + Comments(t[Take2(t, p).0..], Take2(t, p).1)
  }

  // ---------- the loop ----------

  lemma Step2(text: string, i: nat, p: Place)
    requires i < |text|
    ensures var (n, next) := Take2(text[i..], p);
            i + n <= |text| && Comments(text[i..], p) == Head2(text[i..], p) + Comments(text[i + n..], next)
  {
    assert text[i..][Take2(text[i..], p).0..] == text[i + Take2(text[i..], p).0..];
  }

  lemma OpenerAt(text: string, i: nat, depth: nat)
    requires i + 1 < |text| && text[i] == '/' && text[i + 1] == '*'
    ensures Comments(text[i..], Nest(depth)) == "  " + Comments(text[i + 2..], Nest(depth + 1))
  {
    Step2(text, i, Nest(depth));
    assert Starts(text[i..], '/', '*') && Spaces(2) == "  ";
  }

  lemma CloserAt(text: string, i: nat, depth: nat)
    requires i + 1 < |text| && text[i] == '*' && text[i + 1] == '/'
    ensures Comments(text[i..], Nest(depth)) == "  " + Comments(text[i + 2..], if depth <= 1 then InCode else Nest(depth - 1))
  {
    Step2(text, i, Nest(depth));
    assert Starts(text[i..], '*', '/') && Spaces(2) == "  ";
  }

  lemma CommentCharAt(text: string, i: nat, depth: nat)
    requires i < |text| && !Starts(text[i..], '/', '*') && !Starts(text[i..], '*', '/')
    ensures Comments(text[i..], Nest(depth)) == [text[i]] + Comments(text[i + 1..], Nest(depth))
  {
    Step2(text, i, Nest(depth));
  }

  method TurnInBlock(text: string, i: nat, depth: nat) returns (piece: string, j: nat, next: Place)
    requires i < |text| && depth >= 1
    ensures i < j <= |text| && (next.Nest? ==> next.depth >= 1) && !next.InLine?
    ensures piece + Comments(text[j..], next) == Comments(text[i..], Nest(depth))
  {
    if text[i] == '/' && i + 1 < |text| && text[i + 1] == '*' {
      OpenerAt(text, i, depth);
      piece, j, next := "  ", i + 2, Nest(depth + 1);
    } else if text[i] == '*' && i + 1 < |text| && text[i + 1] == '/' {
      CloserAt(text, i, depth);
      piece, j, next := "  ", i + 2, if depth - 1 == 0 then InCode else Nest(depth - 1);
    } else {
      CommentCharAt(text, i, depth);
      piece, j, next := [text[i]], i + 1, Nest(depth);
    }
  }

  method TurnInString(text: string, i: nat, inString: char) returns (piece: string, j: nat, next: Place)
    requires i < |text|
    ensures i < j <= |text| && !next.Nest? && !next.InLine?
    ensures piece + Comments(text[j..], next) == Comments(text[i..], InStr(inString))
  {
    assert text[i..][1..] == text[i + 1..];
    if text[i] == '\\' && i + 1 < |text| {
      assert text[i..][2..] == text[i + 2..] && Spaces(2) == "  ";
      piece, j, next := "  ", i + 2, InStr(inString);
    } else {
      piece, j := if text[i] == '\n' then "\n" else " ", i + 1;
      next := if text[i] == inString then InCode else InStr(inString);
    }
  }

  lemma LineIsKept(t: string, k: nat)
    requires k <= |t| && (forall x :: 0 <= x < k ==> t[x] != '\n') && (k < |t| ==> t[k] == '\n')
    ensures Comments(t, InLine) == t[..k] + Comments(t[k..], InCode)
    decreases k
  {
    if k > 0 {
      LineIsKept(t[1..], k - 1);
      InLineChar(t);
      OneLonger(t, k, Comments(t[k..], InCode));
    } else {
      InLineOver(t);
    }
  }

  lemma InLineChar(t: string)
    requires t != "" && t[0] != '\n'
    ensures Comments(t, InLine) == [t[0]] + Comments(t[1..], InLine)
  {
  }

  lemma InLineOver(t: string)
    requires t == "" || t[0] == '\n'
    ensures Comments(t, InLine) == t[..0] + Comments(t[0..], InCode)
  {
    assert t[0..] == t && t[..0] + Comments(t, InCode) == Comments(t, InCode);
  }

  lemma OpensLine(t: string)
    requires Starts(t, '/', '/')
    ensures Comments(t, InCode) == [t[0]] + Comments(t[1..], InLine)
  {
  }

  lemma OneLonger(t: string, k: nat, rest: string)
    requires 1 <= k <= |t|
    ensures t[1..][k - 1..] == t[k..] && [t[0]] + (t[1..][..k - 1] + rest) == t[..k] + rest
  {
    assert [t[0]] + t[1..][..k - 1] == t[..k];
  }

  lemma LineCommentIsKept(t: string, k: nat)
    requires Starts(t, '/', '/') && 1 <= k <= |t|
    requires (forall x :: 0 <= x < k ==> t[x] != '\n') && (k < |t| ==> t[k] == '\n')
    ensures Comments(t, InCode) == t[..k] + Comments(t[k..], InCode)
  {
    OpensLine(t);
    OneLonger(t, k, Comments(t[k..], InCode));
    LineIsKept(t[1..], k - 1);
  }

  lemma LineCommentAt(text: string, i: nat, j: nat)
    requires i < j <= |text| && Starts(text[i..], '/', '/')
    requires (forall x :: i <= x < j ==> text[x] != '\n') && (j < |text| ==> text[j] == '\n')
    ensures text[i..j] + Comments(text[j..], InCode) == Comments(text[i..], InCode)
  {
    var t, k := text[i..], j - i;
    assert t[k..] == text[j..] && t[..k] == text[i..j];
    assert forall x :: 0 <= x < k ==> t[x] == text[i + x];
    assert k < |t| ==> t[k] == text[j];
    LineCommentIsKept(t, k);
  }

  method TurnInCode(text: string, i: nat) returns (piece: string, j: nat, next: Place)
    requires i < |text|
    ensures i < j <= |text| && (next.Nest? ==> next.depth >= 1) && !next.InLine?
    ensures piece + Comments(text[j..], next) == Comments(text[i..], InCode)
  {
    var c := text[i];
    if c == '/' && i + 1 < |text| && text[i + 1] == '/' {
      j := LineEnd(text, i);
      LineCommentAt(text, i, j);
      piece, next := text[i..j], InCode;
    } else {
      piece, j, next := TurnOutsideComment(text, i);
    }
  }

  method TurnOutsideComment(text: string, i: nat) returns (piece: string, j: nat, next: Place)
    requires i < |text| && !Starts(text[i..], '/', '/')
    ensures i < j <= |text| && (next.Nest? ==> next.depth >= 1) && !next.InLine?
    ensures piece + Comments(text[j..], next) == Comments(text[i..], InCode)
  {
    var c := text[i];
    Step2(text, i, InCode);
    ghost var head := Head2(text[i..], InCode);
    if c == '/' && i + 1 < |text| && text[i + 1] == '*' {
      assert head == Spaces(2) == "  ";
      piece, j, next := "  ", i + 2, Nest(1);
    } else if c == '"' || c == '`' {
      assert head == " ";
      piece, j, next := " ", i + 1, InStr(c);
    } else if c == '\'' {
      piece, j := TurnAtSingleQuote(text, i);
      next := InCode;
    } else {
      assert head == (if c == '\n' then "\n" else " ");
      piece, j, next := if c == '\n' then "\n" else " ", i + 1, InCode;
    }
  }

  /** A character literal is taken whole; any other single quote is a lifetime. */
  method TurnAtSingleQuote(text: string, i: nat) returns (piece: string, j: nat)
    requires i < |text| && text[i] == '\''
    ensures i < j <= |text| && piece + Comments(text[j..], InCode) == Comments(text[i..], InCode)
  {
    Step2(text, i, InCode);
    var n := CharLiteral(text[i..]);
    if n != 0 {
      piece, j := Spaces(n), i + n;
    } else {
      piece, j := " ", i + 1;
    }
  }

  method MaskCodePreservingComments(text: string) returns (out: string)
    ensures out == Comments(text, InCode)
  {
    out := "";
    var i := 0;
    var place := InCode;
    while i < |text|
      invariant 0 <= i <= |text| && !place.InLine? && (place.Nest? ==> place.depth >= 1)
      invariant out + Comments(text[i..], place) == Comments(text, InCode)
    {
      var piece, j, next;
      match place {
        case Nest(d) => piece, j, next := TurnInBlock(text, i, d);
        case InStr(q) => piece, j, next := TurnInString(text, i, q);
        case InCode => piece, j, next := TurnInCode(text, i);
      }
      Regroup(out, piece, Comments(text[j..], next));
      out, i, place := out + piece, j, next;
    }
    assert text[i..] == "";
  }

  // ---------- offsets ----------

  lemma SpacesAreSpaces(n: nat)
    ensures forall i :: 0 <= i < n ==> Spaces(n)[i] == ' '
  {
  }

  lemma {:induction false} CommentsBlanks(t: string, p: Place)
    ensures Blanks(t, Comments(t, p))
    decreases |t|
  {
    if t != "" {
      var (n, next) := Take2(t, p);
      CommentsBlanks(t[n..], next);
      SpacesAreSpaces(n);
      assert t == t[..n] + t[n..];
      BlanksJoin(t[..n], t[n..], Head2(t, p), Comments(t[n..], next));
    }
  }

  /** The scanner steps over a line break: escaped in a string, or alone between single quotes. */
  predicate SwallowsHere(t: string, p: Place)
    requires t != ""
  {
    Take2(t, p).0 >= 2 && t[1] == '\n'
  }

  ghost predicate SwallowsNewline(t: string, p: Place) {
    t != "" && (SwallowsHere(t, p) || SwallowsNewline(t[Take2(t, p).0..], Take2(t, p).1))
  }

  lemma HeadKeepsNewlinesIff(t: string, p: Place)
    requires t != ""
    ensures KeepsNewlines(t[..Take2(t, p).0], Head2(t, p)) <==> !SwallowsHere(t, p)
  {
    var n := Take2(t, p).0;
    SpacesAreSpaces(n);
    if n >= 2 {
      assert t[..n][1] == t[1];
    }
  }

  /** This mask keeps every line break exactly when the scanner swallows none. */
  lemma {:induction false} CommentsKeepNewlinesIff(t: string, p: Place)
    ensures KeepsNewlines(t, Comments(t, p)) <==> !SwallowsNewline(t, p)
    decreases |t|
  {
    if t != "" {
      var (n, next) := Take2(t, p);
      CommentsBlanks(t[n..], next);
      CommentsKeepNewlinesIff(t[n..], next);
      HeadKeepsNewlinesIff(t, p);
      HeadBlanks(t, p);
      Halves(t, n);
      BlanksJoin(t[..n], t[n..], Head2(t, p), Comments(t[n..], next));
    }
  }

  lemma HeadBlanks(t: string, p: Place)
    requires t != ""
    ensures Blanks(t[..Take2(t, p).0], Head2(t, p))
  {
    SpacesAreSpaces(Take2(t, p).0);
  }

  // ---------- the two masks divide the text ----------

  /** What a character is part of, for the scanner of `mask_comments_and_strings`. */
  datatype Class = CodeText | CommentText | Hidden   // hidden: string literals and block delimiters

  function ClassHead(t: string, m: Mode): (head: seq<Class>)
    requires t != ""
    ensures |head| == Take(t, m).0
  {
    match m
    case Block => if Take(t, m).0 == 2 then [Hidden, Hidden] else [CommentText]
    case Str(_) => if Take(t, m).0 == 2 then [Hidden, Hidden] else [Hidden]
    case Line => if t[0] == '\n' then [CodeText] else [CommentText]
    case Code =>
      if IsQuote(t[0]) then [Hidden]
      else if Starts(t, '/', '/') then [CommentText, CommentText]
      else if Starts(t, '/', '*') then [Hidden, Hidden]
      else [CodeText]
  }

  function Classes(t: string, m: Mode): (cls: seq<Class>)
    ensures |cls| == |t|
  {
    if t == "" then [] else ClassHead(t, m) + Classes(t[Take(t, m).0..], Take(t, m).1)
  }

  predicate IsBlankChar(c: char) {
    c == ' ' || c == '\n'
  }

  /** `out` keeps exactly the characters of one class, and blanks the others. */
  ghost predicate Shows(t: string, out: string, cls: seq<Class>, kept: Class) {
    && |out| == |t| == |cls|
    && forall i :: 0 <= i < |t| ==> if cls[i] == kept then out[i] == t[i] else IsBlankChar(out[i])
  }

  lemma ShowsJoin(a: string, b: string, x: string, y: string, c: seq<Class>, d: seq<Class>, kept: Class)
    requires Shows(a, x, c, kept) && Shows(b, y, d, kept)
    ensures Shows(a + b, x + y, c + d, kept)
  {
  }

  /** The full mask shows the code, whatever the text. */
  lemma {:induction false} MaskShowsCode(t: string, m: Mode)
    ensures Shows(t, Mask(t, m), Classes(t, m), CodeText)
    decreases |t|
  {
    if t != "" {
      var (n, next) := Take(t, m);
      MaskShowsCode(t[n..], next);
      assert t == t[..n] + t[n..];
      ShowsJoin(t[..n], t[n..], MaskHead(t, m), Mask(t[n..], next), ClassHead(t, m), Classes(t[n..], next), CodeText);
    }
  }

  /** The token is read alike by both scanners: no block opener inside a block comment, and no single
      quote in code. */
  predicate TokenInStep(t: string, m: Mode)
    requires t != ""
  {
    (m.Block? ==> !Starts(t, '/', '*')) && (m.Code? ==> t[0] != '\'')
  }

  /** Single quotes in code delimit character literals, and block comments do not nest.  Quotes in
      comments and strings are free. */
  ghost predicate InStepThroughout(t: string, m: Mode) {
    t == ""
    || if m.Code? && t[0] == '\'' then CharLiteral(t) > 0 && InStepThroughout(t[CharLiteral(t)..], Code)
       else TokenInStep(t, m) && InStepThroughout(t[Take(t, m).0..], Take(t, m).1)
  }

  function PlaceOf(m: Mode): Place {
    match m
    case Code => InCode
    case Str(q) => InStr(q)
    case Block => Nest(1)
    case Line => InLine
  }

  /** What the comment mask writes for the characters the other scanner takes at once. */
  function ShownHead(t: string, m: Mode): (head: string)
    requires t != "" && TokenInStep(t, m)
    ensures |head| == Take(t, m).0
  {
    if m.Code? && Starts(t, '/', '/') then "//" else Head2(t, PlaceOf(m))
  }

  lemma ShownHeadShows(t: string, m: Mode)
    requires t != "" && TokenInStep(t, m)
    ensures Shows(t[..Take(t, m).0], ShownHead(t, m), ClassHead(t, m), CommentText)
  {
    SpacesAreSpaces(Take(t, m).0);
  }

  /** At such a token the two scanners move together. */
  lemma InStep(t: string, m: Mode)
    requires t != "" && TokenInStep(t, m)
    ensures Comments(t, PlaceOf(m)) == ShownHead(t, m) + Comments(t[Take(t, m).0..], PlaceOf(Take(t, m).1))
  {
    if m.Code? && Starts(t, '/', '/') {
      assert t[1..][1..] == t[2..] && t[1..][0] == '/';
      assert Comments(t[1..], InLine) == "/" + Comments(t[2..], InLine);
      Regroup("/", "/", Comments(t[2..], InLine));
      assert "/" + "/" == "//";
    }
  }

  lemma ShowsToken(t: string, m: Mode)
    requires t != "" && TokenInStep(t, m)
    requires var (n, next) := Take(t, m);
             Shows(t[n..], Comments(t[n..], PlaceOf(next)), Classes(t[n..], next), CommentText)
    ensures Shows(t, Comments(t, PlaceOf(m)), Classes(t, m), CommentText)
  {
    var (n, next) := Take(t, m);
    var y, d := Comments(t[n..], PlaceOf(next)), Classes(t[n..], next);
    InStep(t, m);
    ClassesStep(t, m);
    ShownHeadShows(t, m);
    Halves(t, n);
    ShowsJoin(t[..n], t[n..], ShownHead(t, m), y, ClassHead(t, m), d, CommentText);
  }

  lemma Halves(t: string, n: nat)
    requires n <= |t|
    ensures t[..n] + t[n..] == t
  {
  }

  lemma ClassesStep(t: string, m: Mode)
    requires t != ""
    ensures Classes(t, m) == ClassHead(t, m) + Classes(t[Take(t, m).0..], Take(t, m).1)
  {
  }

  function AllHidden(n: nat): (cls: seq<Class>)
    ensures |cls| == n
  {
    seq(n, _ => Hidden)
  }

  /** The full mask reads a character literal as a short string. */
  lemma LiteralIsHidden(t: string)
    requires t != "" && t[0] == '\'' && CharLiteral(t) > 0
    ensures Classes(t, Code) == AllHidden(CharLiteral(t)) + Classes(t[CharLiteral(t)..], Code)
  {
    var q := '\'';
    ClassesStep(t, Code);
    if CharLiteral(t) == 3 {
      assert t[1..][1..] == t[2..] && t[2..][1..] == t[3..];
      StringCharHidden(t[1..], q);
      StringCharHidden(t[2..], q);
      assert AllHidden(3) == [Hidden] + ([Hidden] + [Hidden]);
      ThreePieces([Hidden], [Hidden], [Hidden], Classes(t[3..], Code));
    } else {
      assert t[1..][2..] == t[3..] && t[3..][1..] == t[4..];
      EscapeHidden(t[1..], q);
      StringCharHidden(t[3..], q);
      assert AllHidden(4) == [Hidden] + ([Hidden, Hidden] + [Hidden]);
      ThreePieces([Hidden], [Hidden, Hidden], [Hidden], Classes(t[4..], Code));
    }
  }

  lemma ThreePieces(a: seq<Class>, b: seq<Class>, c: seq<Class>, rest: seq<Class>)
    ensures a + (b + (c + rest)) == a + (b + c) + rest
  {
  }

  lemma StringCharHidden(t: string, q: char)
    requires t != "" && t[0] != '\\'
    ensures Classes(t, Str(q)) == [Hidden] + Classes(t[1..], if t[0] == q then Code else Str(q))
  {
  }

  lemma EscapeHidden(t: string, q: char)
    requires |t| >= 2 && t[0] == '\\'
    ensures Classes(t, Str(q)) == [Hidden, Hidden] + Classes(t[2..], Str(q))
  {
  }

  lemma LiteralShows(t: string)
    requires t != "" && t[0] == '\'' && CharLiteral(t) > 0
    requires var rest := t[CharLiteral(t)..]; Shows(rest, Comments(rest, InCode), Classes(rest, Code), CommentText)
    ensures Shows(t, Comments(t, InCode), Classes(t, Code), CommentText)
  {
    var n := CharLiteral(t);
    LiteralIsHidden(t);
    SpacesAreSpaces(n);
    assert Comments(t, InCode) == Spaces(n) + Comments(t[n..], InCode);
    Halves(t, n);
    ShowsJoin(t[..n], t[n..], Spaces(n), Comments(t[n..], InCode), AllHidden(n), Classes(t[n..], Code), CommentText);
  }

  /** The comment mask shows the comments. */
  lemma {:induction false} CommentsShowComments(t: string, m: Mode)
    requires InStepThroughout(t, m)
    ensures Shows(t, Comments(t, PlaceOf(m)), Classes(t, m), CommentText)
    decreases |t|
  {
    if t != "" && m.Code? && t[0] == '\'' {
      CommentsShowComments(t[CharLiteral(t)..], Code);
      LiteralShows(t);
    } else if t != "" {
      CommentsShowComments(t[Take(t, m).0..], Take(t, m).1);
      ShowsToken(t, m);
    }
  }

  /** The two masks are complementary: no place keeps a visible character in both, and every place
      outside string literals and block delimiters is kept by exactly the mask meant to keep it. */
  lemma MasksAreComplementary(text: string)
    requires InStepThroughout(text, Code)
    ensures var a, b, cls := Mask(text, Code), Comments(text, InCode), Classes(text, Code);
            && |a| == |b| == |text|
            && forall i :: 0 <= i < |text| ==>
                 && (IsBlankChar(a[i]) || IsBlankChar(b[i]))
                 && (cls[i] == CodeText ==> a[i] == text[i])
                 && (cls[i] == CommentText ==> b[i] == text[i])
                 && (cls[i] == Hidden ==> IsBlankChar(a[i]) && IsBlankChar(b[i]))
  {
    MaskShowsCode(text, Code);
    CommentsShowComments(text, Code);
  }

  lemma OpenBlock(s: string)
    ensures Mask("/*" + s, Code) == "  " + Mask(s, Block)
    ensures Comments("/*" + s, InCode) == "  " + Comments(s, Nest(1))
    ensures Comments("/*" + s, Nest(1)) == "  " + Comments(s, Nest(2))
  {
    assert ("/*" + s)[2..] == s && Spaces(2) == "  ";
  }

  lemma CloseBlock(s: string)
    ensures Mask("*/" + s, Block) == "  " + Mask(s, Code)
    ensures Comments("*/" + s, Nest(2)) == "  " + Comments(s, Nest(1))
  {
    assert ("*/" + s)[2..] == s && Spaces(2) == "  ";
  }

  lemma BlockChar(c: char, s: string)
    requires !Starts([c] + s, '*', '/')
    ensures Mask([c] + s, Block) == [Blank(c)] + Mask(s, Block)
  {
    assert ([c] + s)[1..] == s;
  }

  /** A lone quote in code, as in a lifetime, breaks it: the full mask goes on in a string and the comment
      mask in code. */
  lemma LoneQuoteSplitsTheScanners(s: string)
    requires CharLiteral("'" + s) == 0
    ensures Mask("'" + s, Code) == " " + Mask(s, Str('\''))
    ensures Comments("'" + s, InCode) == " " + Comments(s, InCode)
  {
    assert ("'" + s)[1..] == s;
  }

  /** A nested opener breaks it: after the inner closer, whatever follows is code to one scanner and
      comment to the other, so both show it. */
  lemma NestedOpenerSplitsTheScanners(s: string)
    ensures Mask("/*/**/" + s, Code) == "      " + Mask(s, Code)
    ensures Comments("/*/**/" + s, InCode) == "      " + Comments(s, Nest(1))
  {
    NestedForMask(s);
    NestedForComments(s);
  }

  lemma Spelled(s: string)
    ensures "/*/**/" + s == "/*" + ("/" + ("*" + ("*/" + s)))
    ensures "/*/**/" + s == "/*" + ("/*" + ("*/" + s))
  {
  }

  lemma NestedForMask(s: string)
    ensures Mask("/*/**/" + s, Code) == "      " + Mask(s, Code)
  {
    var s1 := "*/" + s;
    var s2 := "*" + s1;
    var s3 := "/" + s2;
    Spelled(s);
    OpenBlock(s3);
    BlockChar('/', s2);
    BlockChar('*', s1);
    CloseBlock(s);
    JoinBlanks(Mask(s, Code));
  }

  lemma NestedForComments(s: string)
    ensures Comments("/*/**/" + s, InCode) == "      " + Comments(s, Nest(1))
  {
    var s1 := "*/" + s;
    var s2 := "/*" + s1;
    Spelled(s);
    OpenBlock(s2);
    OpenBlock(s1);
    CloseBlock(s);
    JoinBlanks(Comments(s, Nest(1)));
  }

  lemma JoinBlanks(r: string)
    ensures "  " + (" " + (" " + ("  " + r))) == "      " + r
    ensures "  " + ("  " + ("  " + r)) == "      " + r
  {
  }
}
