/**
  A grammar of the texts that the scanners read: characters of code, string
  literals with escapes, line comments and block comments, in any order.  Every
  text is such a sequence of tokens, and the two masks of `Masks` are what they
  make of each token.
 */
module Tokens {
  import opened Sequences
  import opened Masks

  /** A character of a string literal, or a backslash with the character after it. */
  datatype Unit = One(c: char) | Escape(c: char)

  datatype Token =
    | Char(c: char)
    | Literal(quote: char, units: seq<Unit>, closed: bool)
    | LineComment(text: string)
    | BlockComment(text: string, closed: bool)

  function PrintUnit(u: Unit): string {
    match u
    case One(c) => [c]
    case Escape(c) => ['\\', c]
  }

  function PrintUnits(us: seq<Unit>): string {
    if us == [] then "" else PrintUnit(us[0]) + PrintUnits(us[1..])
  }

  function PrintToken(k: Token): string {
    match k
    case Char(c) => [c]
    case Literal(q, us, closed) => [q] + (PrintUnits(us) + if closed then [q] else "")
    case LineComment(text) => "//" + text
    case BlockComment(text, closed) => "/*" + (text + if closed then "*/" else "")
  }

  function PrintAll(ks: seq<Token>): string {
    if ks == [] then "" else PrintToken(ks[0]) + PrintAll(ks[1..])
  }

  // ---------- where a token ends ----------

  /** No quote and no bare backslash inside a literal, but for a backslash that ends the text. */
  predicate GoodUnits(us: seq<Unit>, q: char, endsText: bool) {
    forall i :: 0 <= i < |us| && us[i].One? ==> us[i].c != q && (us[i].c == '\\' ==> i == |us| - 1 && endsText)
  }

  predicate NoCloser(text: string) {
    forall i :: 0 <= i < |text| - 1 ==> !(text[i] == '*' && text[i + 1] == '/')
  }

  /** The token stands for itself in front of `next`. */
  predicate GoodToken(k: Token, next: string) {
    match k
    case Char(c) => c !in {'"', '\'', '`'} && !(c == '/' && next != "" && next[0] in {'/', '*'})
    case Literal(q, us, closed) =>
      q in {'"', '\'', '`'} && GoodUnits(us, q, !closed && next == "") && (closed || next == "")
    case LineComment(text) => (forall i :: 0 <= i < |text| ==> text[i] != '\n') && (next != "" ==> next[0] == '\n')
    case BlockComment(text, closed) => NoCloser(text) && (closed || next == "")
  }

  predicate GoodTokens(ks: seq<Token>) {
    ks == [] || (GoodToken(ks[0], PrintAll(ks[1..])) && GoodTokens(ks[1..]))
  }

  // ---------- what the masks make of a token ----------

  function MaskedUnits(us: seq<Unit>): string {
    if us == [] then "" else (if us[0].One? then Whitened([us[0].c]) else "  ") + MaskedUnits(us[1..])
  }

  function MaskedToken(k: Token): string {
    match k
    case Char(c) => [c]
    case Literal(q, us, closed) => " " + (MaskedUnits(us) + if closed then " " else "")
    case LineComment(text) => "  " + Whitened(text)
    case BlockComment(text, closed) => "  " + (Whitened(text) + if closed then "  " else "")
  }

  function StrippedToken(k: Token): string {
    if k.Literal? then PrintToken(k) else MaskedToken(k)
  }

  function MaskedAll(ks: seq<Token>): string {
    if ks == [] then "" else MaskedToken(ks[0]) + MaskedAll(ks[1..])
  }

  function StrippedAll(ks: seq<Token>): string {
    if ks == [] then "" else StrippedToken(ks[0]) + StrippedAll(ks[1..])
  }

  // ---------- the scanners take tokens ----------

  lemma OneChar(c: char, rest: string, m: Mode)
    requires Take([c] + rest, m).0 == 1
    ensures Mask([c] + rest, m) == MaskHead([c] + rest, m) + Mask(rest, Take([c] + rest, m).1)
    ensures Strip([c] + rest, m) == StripHead([c] + rest, m) + Strip(rest, Take([c] + rest, m).1)
  {
    assert ([c] + rest)[1..] == rest;
  }

  lemma TwoChars(c: char, d: char, rest: string, m: Mode)
    requires Take([c, d] + rest, m).0 == 2
    ensures Mask([c, d] + rest, m) == MaskHead([c, d] + rest, m) + Mask(rest, Take([c, d] + rest, m).1)
    ensures Strip([c, d] + rest, m) == StripHead([c, d] + rest, m) + Strip(rest, Take([c, d] + rest, m).1)
  {
    assert ([c, d] + rest)[2..] == rest;
  }

  lemma UnitIsTaken(u: Unit, q: char, rest: string)
    requires u.One? ==> u.c != q && (u.c == '\\' ==> rest == "")
    ensures Mask(PrintUnit(u) + rest, Str(q)) == (if u.One? then Whitened([u.c]) else "  ") + Mask(rest, Str(q))
    ensures Strip(PrintUnit(u) + rest, Str(q)) == PrintUnit(u) + Strip(rest, Str(q))
  {
    match u {
      case One(c) => OneChar(c, rest, Str(q));
      case Escape(c) => TwoChars('\\', c, rest, Str(q));
    }
  }

  lemma {:induction false} UnitsAreTaken(us: seq<Unit>, q: char, rest: string)
    requires GoodUnits(us, q, rest == "")
    ensures Mask(PrintUnits(us) + rest, Str(q)) == MaskedUnits(us) + Mask(rest, Str(q))
    ensures Strip(PrintUnits(us) + rest, Str(q)) == PrintUnits(us) + Strip(rest, Str(q))
  {
    if us == [] {
      assert PrintUnits(us) + rest == rest;
    } else {
      var more := us[1..];
      assert forall i :: 0 <= i < |more| ==> more[i] == us[i + 1];
      Grouped(PrintUnit(us[0]), PrintUnits(more), rest);
      assert us[0].One? && us[0].c == '\\' ==> more == [] && PrintUnits(more) + rest == "";
      UnitIsTaken(us[0], q, PrintUnits(more) + rest);
      UnitsAreTaken(more, q, rest);
      Grouped(if us[0].One? then Whitened([us[0].c]) else "  ", MaskedUnits(more), Mask(rest, Str(q)));
      Grouped(PrintUnit(us[0]), PrintUnits(more), Strip(rest, Str(q)));
    }
  }

  lemma Grouped(a: string, b: string, c: string)
    ensures (a + b) + c == a + (b + c)
  {
  }

  lemma LiteralIsTaken(k: Token, rest: string)
    requires k.Literal? && GoodToken(k, rest)
    ensures Mask(PrintToken(k) + rest, Code) == MaskedToken(k) + Mask(rest, Code)
    ensures Strip(PrintToken(k) + rest, Code) == PrintToken(k) + Strip(rest, Code)
  {
    var q, end := k.quote, if k.closed then [k.quote] else "";
    var tail := end + rest;
    Grouped(PrintUnits(k.units), end, rest);
    Grouped([q], PrintUnits(k.units) + end, rest);
    OneChar(q, PrintUnits(k.units) + tail, Code);
    UnitsAreTaken(k.units, q, tail);
    if k.closed {
      OneChar(q, rest, Str(q));
    } else {
      assert tail == "";
    }
    var blank := if k.closed then " " else "";
    assert Mask(tail, Str(q)) == blank + Mask(rest, Code) && Strip(tail, Str(q)) == end + Strip(rest, Code);
    Grouped(MaskedUnits(k.units), blank, Mask(rest, Code));
    Grouped(" ", MaskedUnits(k.units) + blank, Mask(rest, Code));
    Grouped(PrintUnits(k.units), end, Strip(rest, Code));
    Grouped([q], PrintUnits(k.units) + end, Strip(rest, Code));
  }

  lemma LineGoesOn(c: char, all: string)
    requires c != '\n'
    ensures Mask([c] + all, Line) == Whitened([c]) + Mask(all, Line) && Strip([c] + all, Line) == Whitened([c]) + Strip(all, Line)
  {
    OneChar(c, all, Line);
  }

  lemma BlockGoesOn(c: char, all: string)
    requires !Starts([c] + all, '*', '/')
    ensures Mask([c] + all, Block) == Whitened([c]) + Mask(all, Block) && Strip([c] + all, Block) == Whitened([c]) + Strip(all, Block)
  {
    OneChar(c, all, Block);
  }

  lemma {:induction false} LineIsTaken(text: string, rest: string)
    requires (forall i :: 0 <= i < |text| ==> text[i] != '\n') && (rest != "" ==> rest[0] == '\n')
    ensures Mask(text + rest, Line) == Whitened(text) + Mask(rest, Code)
    ensures Strip(text + rest, Line) == Whitened(text) + Strip(rest, Code)
    decreases |text|
  {
    if text == "" {
      assert text + rest == rest && Whitened(text) == "";
    } else {
      assert text + rest == [text[0]] + (text[1..] + rest);
      LineGoesOn(text[0], text[1..] + rest);
      LineIsTaken(text[1..], rest);
      WhitenedHead(text, Mask(rest, Code));
      WhitenedHead(text, Strip(rest, Code));
    }
  }

  lemma {:induction false} BlockIsTaken(text: string, rest: string)
    requires NoCloser(text) && (rest == "" || Starts(rest, '*', '/'))
    ensures Mask(text + rest, Block) == Whitened(text) + Mask(rest, Block)
    ensures Strip(text + rest, Block) == Whitened(text) + Strip(rest, Block)
    decreases |text|
  {
    if text == "" {
      assert text + rest == rest && Whitened(text) == "";
    } else {
      var all := text[1..] + rest;
      assert text + rest == [text[0]] + all;
      assert |text| > 1 ==> all[0] == text[1];
      assert !Starts([text[0]] + all, '*', '/');
      BlockGoesOn(text[0], all);
      NoCloserLater(text);
      BlockIsTaken(text[1..], rest);
      WhitenedHead(text, Mask(rest, Block));
      WhitenedHead(text, Strip(rest, Block));
    }
  }

  lemma NoCloserLater(text: string)
    requires text != "" && NoCloser(text)
    ensures NoCloser(text[1..])
  {
    var t := text[1..];
    forall i | 0 <= i < |t| - 1
      ensures !(t[i] == '*' && t[i + 1] == '/')
    {
      assert t[i] == text[i + 1] && t[i + 1] == text[i + 2] && !(text[i + 1] == '*' && text[i + 1 + 1] == '/');
    }
  }

  lemma WhitenedHead(text: string, rest: string)
    requires text != ""
    ensures Whitened(text) + rest == Whitened([text[0]]) + (Whitened(text[1..]) + rest)
  {
    assert Whitened(text) == Whitened([text[0]]) + Whitened(text[1..]);
  }

  lemma BlockCommentIsTaken(k: Token, rest: string)
    requires k.BlockComment? && GoodToken(k, rest)
    ensures Mask(PrintToken(k) + rest, Code) == MaskedToken(k) + Mask(rest, Code)
    ensures Strip(PrintToken(k) + rest, Code) == MaskedToken(k) + Strip(rest, Code)
  {
    var end, blank := if k.closed then "*/" else "", if k.closed then "  " else "";
    var tail := end + rest;
    assert PrintToken(k) + rest == ['/', '*'] + (k.text + tail);
    TwoChars('/', '*', k.text + tail, Code);
    BlockIsTaken(k.text, tail);
    if k.closed {
      assert tail == ['*', '/'] + rest;
      TwoChars('*', '/', rest, Block);
    } else {
      assert tail == "";
    }
    assert Mask(tail, Block) == blank + Mask(rest, Code) && Strip(tail, Block) == blank + Strip(rest, Code);
    Around(Whitened(k.text), blank, Mask(rest, Code));
    Around(Whitened(k.text), blank, Strip(rest, Code));
  }

  lemma Around(a: string, b: string, c: string)
    ensures "  " + (a + (b + c)) == ("  " + (a + b)) + c
  {
  }

  lemma LineCommentIsTaken(text: string, rest: string)
    requires GoodToken(LineComment(text), rest)
    ensures Mask("//" + text + rest, Code) == "  " + Whitened(text) + Mask(rest, Code)
    ensures Strip("//" + text + rest, Code) == "  " + Whitened(text) + Strip(rest, Code)
  {
    Grouped("//", text, rest);
    TwoChars('/', '/', text + rest, Code);
    LineIsTaken(text, rest);
    Grouped("  ", Whitened(text), Mask(rest, Code));
    Grouped("  ", Whitened(text), Strip(rest, Code));
  }

  lemma TokenIsTaken(k: Token, rest: string)
    requires GoodToken(k, rest)
    ensures Mask(PrintToken(k) + rest, Code) == MaskedToken(k) + Mask(rest, Code)
    ensures Strip(PrintToken(k) + rest, Code) == StrippedToken(k) + Strip(rest, Code)
  {
    match k {
      case Char(c) => OneChar(c, rest, Code);
      case Literal(_, _, _) => LiteralIsTaken(k, rest);
      case LineComment(text) => LineCommentIsTaken(text, rest);
      case BlockComment(_, _) => BlockCommentIsTaken(k, rest);
    }
  }

  /** What the two masks write for a sequence of tokens: code stays, comments are blanked, and string literals
      are blanked by the one and copied by the other. */
  lemma {:induction false} MasksOfTokens(ks: seq<Token>)
    requires GoodTokens(ks)
    ensures Mask(PrintAll(ks), Code) == MaskedAll(ks) && Strip(PrintAll(ks), Code) == StrippedAll(ks)
  {
    if ks != [] {
      TokenIsTaken(ks[0], PrintAll(ks[1..]));
      MasksOfTokens(ks[1..]);
    }
  }

  // ---------- character by character ----------

  datatype Part = CodePart | StringPart | CommentPart | DelimiterPart

  function Repeated(part: Part, n: nat): (parts: seq<Part>)
    ensures |parts| == n && forall i :: 0 <= i < n ==> parts[i] == part
  {
    seq(n, _ => part)
  }

  /** What each character of a token is part of; quotes belong to their string, `//` to its comment. */
  function PartsOf(k: Token): (parts: seq<Part>)
    ensures |parts| == |PrintToken(k)|
  {
    match k
    case Char(_) => [CodePart]
    case Literal(_, _, _) => Repeated(StringPart, |PrintToken(k)|)
    case LineComment(text) => Repeated(CommentPart, 2 + |text|)
    case BlockComment(text, closed) =>
      Repeated(DelimiterPart, 2) + Repeated(CommentPart, |text|) + Repeated(DelimiterPart, if closed then 2 else 0)
  }

  function AllParts(ks: seq<Token>): (parts: seq<Part>)
    ensures |parts| == |PrintAll(ks)|
  {
    if ks == [] then [] else PartsOf(ks[0]) + AllParts(ks[1..])
  }

  /** Code and string literals are shown as they are, quotes and escapes included; comments and the delimiters of
      block comments are blank, but for their line breaks. */
  ghost predicate ShowsCodeAndStrings(text: string, out: string, parts: seq<Part>) {
    && |out| == |text| == |parts|
    && forall i :: 0 <= i < |text| ==>
         out[i] == if parts[i].CodePart? || parts[i].StringPart? then text[i] else if text[i] == '\n' then '\n' else ' '
  }

  lemma ShowsJoin(a: string, b: string, x: string, y: string, p: seq<Part>, q: seq<Part>)
    requires ShowsCodeAndStrings(a, x, p) && ShowsCodeAndStrings(b, y, q)
    ensures ShowsCodeAndStrings(a + b, x + y, p + q)
  {
  }

  lemma TokenShows(k: Token, next: string)
    requires GoodToken(k, next)
    ensures ShowsCodeAndStrings(PrintToken(k), StrippedToken(k), PartsOf(k))
  {
  }

  lemma {:induction false} StripShows(ks: seq<Token>)
    requires GoodTokens(ks)
    ensures ShowsCodeAndStrings(PrintAll(ks), Strip(PrintAll(ks), Code), AllParts(ks))
  {
    MasksOfTokens(ks);
    if ks != [] {
      TokenShows(ks[0], PrintAll(ks[1..]));
      StripShows(ks[1..]);
      MasksOfTokens(ks[1..]);
      ShowsJoin(PrintToken(ks[0]), PrintAll(ks[1..]), StrippedToken(ks[0]), StrippedAll(ks[1..]), PartsOf(ks[0]), AllParts(ks[1..]));
    }
  }

  // ---------- every text is a sequence of tokens ----------

  lemma {:induction false} ReadUnits(t: string, q: char) returns (us: seq<Unit>, closed: bool, rest: string)
    ensures t == PrintUnits(us) + ((if closed then [q] else "") + rest)
    ensures GoodUnits(us, q, !closed && rest == "") && (closed || rest == "")
    decreases |t|
  {
    if t == "" {
      us, closed, rest := [], false, "";
    } else if t[0] == '\\' && |t| >= 2 {
      us, closed, rest := ReadUnits(t[2..], q);
      assert t == PrintUnit(Escape(t[1])) + t[2..];
      us := AddUnit(Escape(t[1]), us, q, closed, rest, t[2..]);
    } else if t[0] == q {
      us, closed, rest := [], true, t[1..];
    } else {
      us, closed, rest := ReadUnits(t[1..], q);
      assert t == PrintUnit(One(t[0])) + t[1..];
      UnitsTakeSpace(us);
      us := AddUnit(One(t[0]), us, q, closed, rest, t[1..]);
    }
  }

  lemma {:induction false} UnitsTakeSpace(us: seq<Unit>)
    ensures |us| <= |PrintUnits(us)|
  {
    if us != [] {
      UnitsTakeSpace(us[1..]);
    }
  }

  lemma AddUnit(u: Unit, us: seq<Unit>, q: char, closed: bool, rest: string, tail: string) returns (more: seq<Unit>)
    requires tail == PrintUnits(us) + ((if closed then [q] else "") + rest) && GoodUnits(us, q, !closed && rest == "")
    requires u.One? ==> u.c != q && (u.c == '\\' ==> us == [] && !closed && rest == "")
    ensures PrintUnit(u) + tail == PrintUnits(more) + ((if closed then [q] else "") + rest) && GoodUnits(more, q, !closed && rest == "")
  {
    more := [u] + us;
    assert more[1..] == us;
    Grouped(PrintUnit(u), PrintUnits(us), (if closed then [q] else "") + rest);
  }

  lemma {:induction false} ReadLine(t: string) returns (text: string, rest: string)
    ensures t == text + rest && (forall i :: 0 <= i < |text| ==> text[i] != '\n') && (rest != "" ==> rest[0] == '\n')
    decreases |t|
  {
    if t == "" || t[0] == '\n' {
      text, rest := "", t;
    } else {
      text, rest := ReadLine(t[1..]);
      text := [t[0]] + text;
    }
  }

  lemma {:induction false} ReadBlock(t: string) returns (text: string, closed: bool, rest: string)
    ensures t == text + ((if closed then "*/" else "") + rest) && NoCloser(text) && (closed || rest == "")
    decreases |t|
  {
    if t == "" {
      text, closed, rest := "", false, "";
    } else if Starts(t, '*', '/') {
      text, closed, rest := "", true, t[2..];
      assert t == "*/" + rest;
    } else {
      text, closed, rest := ReadBlock(t[1..]);
      assert |text| > 0 ==> t[1..][0] == text[0];
      text := [t[0]] + text;
    }
  }

  lemma FirstLiteral(t: string) returns (k: Token, rest: string)
    requires t != "" && t[0] in {'"', '\'', '`'}
    ensures t == PrintToken(k) + rest && GoodToken(k, rest) && |rest| < |t|
  {
    var us, closed, r := ReadUnits(t[1..], t[0]);
    k, rest := Literal(t[0], us, closed), r;
    Grouped(PrintUnits(us), if closed then [t[0]] else "", rest);
    assert t == [t[0]] + t[1..];
  }

  lemma FirstBlock(t: string) returns (k: Token, rest: string)
    requires Starts(t, '/', '*')
    ensures t == PrintToken(k) + rest && GoodToken(k, rest) && |rest| < |t|
  {
    var text, closed, r := ReadBlock(t[2..]);
    k, rest := BlockComment(text, closed), r;
    Grouped(text, if closed then "*/" else "", rest);
    assert t == "/*" + t[2..];
  }

  lemma FirstToken(t: string) returns (k: Token, rest: string)
    requires t != ""
    ensures t == PrintToken(k) + rest && GoodToken(k, rest) && |rest| < |t|
  {
    if t[0] in {'"', '\'', '`'} {
      k, rest := FirstLiteral(t);
    } else if Starts(t, '/', '/') {
      var text, r := ReadLine(t[2..]);
      k, rest := LineComment(text), r;
      assert t == "//" + t[2..];
    } else if Starts(t, '/', '*') {
      k, rest := FirstBlock(t);
    } else {
      k, rest := Char(t[0]), t[1..];
    }
  }

  /** The tokens cover every text. */
  lemma {:induction false} EveryTextIsTokens(t: string) returns (ks: seq<Token>)
    ensures GoodTokens(ks) && PrintAll(ks) == t
    decreases |t|
  {
    if t == "" {
      ks := [];
    } else {
      var k, rest := FirstToken(t);
      var more := EveryTextIsTokens(rest);
      ks := [k] + more;
      assert ks[1..] == more;
    }
  }
}
