/**
  The grammar that `mask_code_preserving_comments` reads: block comments nest, and
  single quotes delimit character literals or stand alone.  Every text is a
  sequence of such tokens, and the comment mask is what it makes of each.
 */
module CommentTokens {
  import opened Sequences
  import opened Masks
  import opened Tokens
  import opened CommentMask

  /** A character of a block comment, or a comment inside it. */
  datatype Item = Letter(c: char) | Inner(items: seq<Item>, closed: bool)

  datatype Piece =
    | Other(c: char)
    | OneChar(c: char)                                  // 'c'
    | EscapedChar(c: char)                              // '\c'
    | Text(quote: char, units: seq<Unit>, closed: bool)
    | ToEndOfLine(text: string)
    | Nested(items: seq<Item>, closed: bool)

  function PrintItem(x: Item): string {
    match x
    case Letter(c) => [c]
    case Inner(items, closed) => "/*" + (PrintItems(items) + if closed then "*/" else "")
  }

  function PrintItems(xs: seq<Item>): string {
    if xs == [] then "" else PrintItem(xs[0]) + PrintItems(xs[1..])
  }

  function PrintPiece(p: Piece): string {
    match p
    case Other(c) => [c]
    case OneChar(c) => ['\'', c, '\'']
    case EscapedChar(c) => ['\'', '\\', c, '\'']
    case Text(q, us, closed) => [q] + (PrintUnits(us) + if closed then [q] else "")
    case ToEndOfLine(text) => "//" + text
    case Nested(items, closed) => "/*" + (PrintItems(items) + if closed then "*/" else "")
  }

  function PrintPieces(ps: seq<Piece>): string {
    if ps == [] then "" else PrintPiece(ps[0]) + PrintPieces(ps[1..])
  }

  // ---------- where a piece ends ----------

  /** The item stands for itself in front of `next`; only at the end of the text may a comment stay open. */
  predicate GoodItem(x: Item, next: string) {
    match x
    case Letter(c) => !(c == '/' && next != "" && next[0] == '*') && !(c == '*' && next != "" && next[0] == '/')
    case Inner(items, closed) => GoodItems(items, (if closed then "*/" else "") + next) && (closed || next == "")
  }

  predicate GoodItems(xs: seq<Item>, next: string) {
    xs == [] || (GoodItem(xs[0], PrintItems(xs[1..]) + next) && GoodItems(xs[1..], next))
  }

  /** A character literal starts here. */
  predicate LiteralAt(t: string) {
    || (|t| >= 3 && t[0] == '\'' && t[1] !in {'\\', '\''} && t[2] == '\'')
    || (|t| >= 4 && t[0] == '\'' && t[1] == '\\' && t[2] != '\n' && t[3] == '\'')
  }

  predicate GoodPiece(p: Piece, next: string) {
    match p
    case Other(c) => c !in {'"', '`'} && !(c == '/' && next != "" && next[0] in {'/', '*'}) && !LiteralAt([c] + next)
    case OneChar(c) => c !in {'\\', '\''}
    case EscapedChar(c) => c != '\n'
    case Text(q, us, closed) => q in {'"', '`'} && GoodUnits(us, q, !closed && next == "") && (closed || next == "")
    case ToEndOfLine(text) => (forall i :: 0 <= i < |text| ==> text[i] != '\n') && (next != "" ==> next[0] == '\n')
    case Nested(items, closed) => GoodItems(items, (if closed then "*/" else "") + next) && (closed || next == "")
  }

  predicate GoodPieces(ps: seq<Piece>) {
    ps == [] || (GoodPiece(ps[0], PrintPieces(ps[1..])) && GoodPieces(ps[1..]))
  }

  // ---------- what the mask makes of a piece ----------

  function ShownItem(x: Item): string {
    match x
    case Letter(c) => [c]
    case Inner(items, closed) => "  " + (ShownItems(items) + if closed then "  " else "")
  }

  function ShownItems(xs: seq<Item>): string {
    if xs == [] then "" else ShownItem(xs[0]) + ShownItems(xs[1..])
  }

  /** Comments are shown without their delimiters, `//` excepted; all else is blank. */
  function ShownPiece(p: Piece): string {
    match p
    case Other(c) => Whitened([c])
    case OneChar(_) => "   "
    case EscapedChar(_) => "    "
    case Text(_, us, closed) => " " + (MaskedUnits(us) + if closed then " " else "")
    case ToEndOfLine(text) => "//" + text
    case Nested(items, closed) => "  " + (ShownItems(items) + if closed then "  " else "")
  }

  function ShownPieces(ps: seq<Piece>): string {
    if ps == [] then "" else ShownPiece(ps[0]) + ShownPieces(ps[1..])
  }

  // ---------- the scanner takes pieces ----------

  lemma TakesOne(c: char, rest: string, p: Place)
    requires Take2([c] + rest, p).0 == 1
    ensures Comments([c] + rest, p) == Head2([c] + rest, p) + Comments(rest, Take2([c] + rest, p).1)
  {
    assert ([c] + rest)[1..] == rest;
  }

  lemma TakesTwo(c: char, d: char, rest: string, p: Place)
    requires Take2([c, d] + rest, p).0 == 2
    ensures Comments([c, d] + rest, p) == "  " + Comments(rest, Take2([c, d] + rest, p).1)
  {
    assert ([c, d] + rest)[2..] == rest && Spaces(2) == "  ";
  }

  lemma UnitTaken(u: Unit, q: char, rest: string)
    requires u.One? ==> u.c != q && (u.c == '\\' ==> rest == "")
    ensures Comments(PrintUnit(u) + rest, InStr(q)) == (if u.One? then Whitened([u.c]) else "  ") + Comments(rest, InStr(q))
  {
    match u {
      case One(c) => TakesOne(c, rest, InStr(q));
      case Escape(c) => TakesTwo('\\', c, rest, InStr(q));
    }
  }

  lemma {:induction false} UnitsTaken(us: seq<Unit>, q: char, rest: string)
    requires GoodUnits(us, q, rest == "")
    ensures Comments(PrintUnits(us) + rest, InStr(q)) == MaskedUnits(us) + Comments(rest, InStr(q))
  {
    if us == [] {
      assert PrintUnits(us) + rest == rest;
    } else {
      var more := us[1..];
      assert forall i :: 0 <= i < |more| ==> more[i] == us[i + 1];
      Grouped(PrintUnit(us[0]), PrintUnits(more), rest);
      assert us[0].One? && us[0].c == '\\' ==> more == [] && PrintUnits(more) + rest == "";
      UnitTaken(us[0], q, PrintUnits(more) + rest);
      UnitsTaken(more, q, rest);
      Grouped(if us[0].One? then Whitened([us[0].c]) else "  ", MaskedUnits(more), Comments(rest, InStr(q)));
    }
  }

  lemma TextEnds(q: char, closed: bool, rest: string)
    requires q in {'"', '`'} && (closed || rest == "")
    ensures Comments((if closed then [q] else "") + rest, InStr(q)) == (if closed then " " else "") + Comments(rest, InCode)
  {
    if closed {
      TakesOne(q, rest, InStr(q));
    } else {
      assert "" + rest == "" && "" + Comments(rest, InCode) == "";
    }
  }

  lemma TextTaken(p: Piece, rest: string)
    requires p.Text? && GoodPiece(p, rest)
    ensures Comments(PrintPiece(p) + rest, InCode) == ShownPiece(p) + Comments(rest, InCode)
  {
    var q, end, blank := p.quote, if p.closed then [p.quote] else "", if p.closed then " " else "";
    var tail := end + rest;
    Grouped(PrintUnits(p.units), end, rest);
    Grouped([q], PrintUnits(p.units) + end, rest);
    TakesOne(q, PrintUnits(p.units) + tail, InCode);
    UnitsTaken(p.units, q, tail);
    TextEnds(q, p.closed, rest);
    Grouped(MaskedUnits(p.units), blank, Comments(rest, InCode));
    Grouped(" ", MaskedUnits(p.units) + blank, Comments(rest, InCode));
  }

  /** The place behind a comment that was entered at depth `d`. */
  function Outside(d: nat): Place {
    if d == 0 then InCode else Nest(d)
  }

  lemma CommentTaken(items: seq<Item>, closed: bool, d: nat, rest: string)
    requires GoodItems(items, (if closed then "*/" else "") + rest) && (closed || rest == "")
    ensures Comments(PrintItems(items) + ((if closed then "*/" else "") + rest), Nest(d + 1)) ==
            ShownItems(items) + ((if closed then "  " else "") + Comments(rest, Outside(d)))
    decreases items, 1
  {
    var tail := (if closed then "*/" else "") + rest;
    ItemsTaken(items, d + 1, tail);
    if closed {
      assert tail == ['*', '/'] + rest;
      TakesTwo('*', '/', rest, Nest(d + 1));
    } else {
      assert tail == "" && Comments(tail, Nest(d + 1)) == "";
    }
  }

  lemma {:induction false} ItemsTaken(xs: seq<Item>, d: nat, rest: string)
    requires GoodItems(xs, rest) && d > 0
    ensures Comments(PrintItems(xs) + rest, Nest(d)) == ShownItems(xs) + Comments(rest, Nest(d))
    decreases xs, 0
  {
    if xs == [] {
      assert PrintItems(xs) + rest == rest;
    } else {
      var more := PrintItems(xs[1..]) + rest;
      Grouped(PrintItem(xs[0]), PrintItems(xs[1..]), rest);
      ItemsTaken(xs[1..], d, rest);
      match xs[0] {
        case Letter(c) => TakesOne(c, more, Nest(d));
        case Inner(items, closed) =>
          CommentTaken(items, closed, d, more);
          OpenedComment(PrintItems(items), if closed then "*/" else "", ShownItems(items), if closed then "  " else "", d, more);
      }
      Grouped(ShownItem(xs[0]), ShownItems(xs[1..]), Comments(rest, Nest(d)));
    }
  }

  /** The opener in front of a comment, in code (`d` is 0) or in a comment. */
  lemma OpenedComment(inside: string, end: string, shown: string, blank: string, d: nat, rest: string)
    requires Comments(inside + (end + rest), Nest(d + 1)) == shown + (blank + Comments(rest, Outside(d)))
    ensures Comments("/*" + (inside + end) + rest, Outside(d)) == "  " + (shown + blank) + Comments(rest, Outside(d))
  {
    Opener(inside, end, rest);
    OpenerTaken(inside + (end + rest), d);
    Around(shown, blank, Comments(rest, Outside(d)));
  }

  lemma OpenerTaken(rest: string, d: nat)
    ensures Comments(['/', '*'] + rest, Outside(d)) == "  " + Comments(rest, Nest(d + 1))
  {
    TakesTwo('/', '*', rest, Outside(d));
  }

  lemma Opener(a: string, b: string, c: string)
    ensures "/*" + (a + b) + c == ['/', '*'] + (a + (b + c))
  {
  }

  lemma LineTaken(text: string, rest: string)
    requires (forall i :: 0 <= i < |text| ==> text[i] != '\n') && (rest != "" ==> rest[0] == '\n')
    ensures Comments("//" + text + rest, InCode) == "//" + text + Comments(rest, InCode)
  {
    var t := "//" + text + rest;
    LineCommentIsKept(t, 2 + |text|);
    assert t[..2 + |text|] == "//" + text && t[2 + |text|..] == rest;
  }

  lemma CharacterTaken(p: Piece, rest: string)
    requires (p.OneChar? || p.EscapedChar?) && GoodPiece(p, rest)
    ensures Comments(PrintPiece(p) + rest, InCode) == ShownPiece(p) + Comments(rest, InCode)
  {
    var t, n := PrintPiece(p) + rest, |PrintPiece(p)|;
    assert t[n..] == rest && CharLiteral(t) == n;
    assert Spaces(3) == "   " && Spaces(4) == "    ";
  }

  lemma NestedTaken(items: seq<Item>, closed: bool, rest: string)
    requires GoodItems(items, (if closed then "*/" else "") + rest) && (closed || rest == "")
    ensures Comments("/*" + (PrintItems(items) + if closed then "*/" else "") + rest, InCode) ==
            "  " + (ShownItems(items) + if closed then "  " else "") + Comments(rest, InCode)
  {
    CommentTaken(items, closed, 0, rest);
    OpenedComment(PrintItems(items), if closed then "*/" else "", ShownItems(items), if closed then "  " else "", 0, rest);
  }

  lemma PieceTaken(p: Piece, rest: string)
    requires GoodPiece(p, rest)
    ensures Comments(PrintPiece(p) + rest, InCode) == ShownPiece(p) + Comments(rest, InCode)
  {
    match p {
      case Other(c) => TakesOne(c, rest, InCode);
      case Text(_, _, _) => TextTaken(p, rest);
      case ToEndOfLine(text) => LineTaken(text, rest);
      case Nested(items, closed) => NestedTaken(items, closed, rest);
      case _ => CharacterTaken(p, rest);
    }
  }

  /** What the comment mask writes for a sequence of pieces: the insides of comments and nothing else. */
  lemma {:induction false} CommentsOfPieces(ps: seq<Piece>)
    requires GoodPieces(ps)
    ensures Comments(PrintPieces(ps), InCode) == ShownPieces(ps)
  {
    if ps != [] {
      PieceTaken(ps[0], PrintPieces(ps[1..]));
      CommentsOfPieces(ps[1..]);
    }
  }

  // ---------- every text is a sequence of pieces ----------

  lemma {:induction false} ReadItems(t: string) returns (xs: seq<Item>, closed: bool, rest: string)
    ensures t == PrintItems(xs) + ((if closed then "*/" else "") + rest)
    ensures GoodItems(xs, (if closed then "*/" else "") + rest) && (closed || rest == "") && |rest| <= |t|
    decreases |t|
  {
    if t == "" {
      xs, closed, rest := [], false, "";
    } else if Starts(t, '*', '/') {
      xs, closed, rest := [], true, t[2..];
      assert t == "*/" + rest;
    } else {
      var x, after := ReadItem(t);
      xs, closed, rest := ReadItems(after);
      var all := [x] + xs;
      assert all[1..] == xs;
      Grouped(PrintItem(x), PrintItems(xs), (if closed then "*/" else "") + rest);
      xs := all;
    }
  }

  /** The first item of a comment that does not end here. */
  lemma ReadItem(t: string) returns (x: Item, rest: string)
    requires t != "" && !Starts(t, '*', '/')
    ensures t == PrintItem(x) + rest && GoodItem(x, rest) && |rest| < |t|
    decreases |t|, 0
  {
    if Starts(t, '/', '*') {
      var items, closed, r := ReadItems(t[2..]);
      x, rest := Inner(items, closed), r;
      assert t == "/*" + t[2..];
      Grouped(PrintItems(items), if closed then "*/" else "", rest);
    } else {
      x, rest := Letter(t[0]), t[1..];
    }
  }

  lemma Character(t: string) returns (p: Piece, rest: string)
    requires LiteralAt(t)
    ensures t == PrintPiece(p) + rest && GoodPiece(p, rest) && |rest| < |t|
  {
    p := if t[1] == '\\' then EscapedChar(t[2]) else OneChar(t[1]);
    rest := t[|PrintPiece(p)|..];
  }

  lemma FirstText(t: string) returns (p: Piece, rest: string)
    requires t != "" && t[0] in {'"', '`'}
    ensures t == PrintPiece(p) + rest && GoodPiece(p, rest) && |rest| < |t|
  {
    var us, closed, r := ReadUnits(t[1..], t[0]);
    p, rest := Text(t[0], us, closed), r;
    Grouped(PrintUnits(us), if closed then [t[0]] else "", rest);
    assert t == [t[0]] + t[1..];
  }

  lemma FirstComment(t: string) returns (p: Piece, rest: string)
    requires Starts(t, '/', '*')
    ensures t == PrintPiece(p) + rest && GoodPiece(p, rest) && |rest| < |t|
  {
    var items, closed, r := ReadItems(t[2..]);
    p, rest := Nested(items, closed), r;
    assert t == "/*" + t[2..];
    Grouped(PrintItems(items), if closed then "*/" else "", rest);
  }

  lemma FirstPiece(t: string) returns (p: Piece, rest: string)
    requires t != ""
    ensures t == PrintPiece(p) + rest && GoodPiece(p, rest) && |rest| < |t|
  {
    if t[0] in {'"', '`'} {
      p, rest := FirstText(t);
    } else if Starts(t, '/', '/') {
      var text, r := ReadLine(t[2..]);
      p, rest := ToEndOfLine(text), r;
      assert t == "//" + t[2..];
    } else if Starts(t, '/', '*') {
      p, rest := FirstComment(t);
    } else if LiteralAt(t) {
      p, rest := Character(t);
    } else {
      p, rest := Other(t[0]), t[1..];
      assert [t[0]] + rest == t;
    }
  }

  /** The pieces cover every text. */
  lemma {:induction false} EveryTextIsPieces(t: string) returns (ps: seq<Piece>)
    ensures GoodPieces(ps) && PrintPieces(ps) == t
    decreases |t|
  {
    if t == "" {
      ps := [];
    } else {
      var p, rest := FirstPiece(t);
      var more := EveryTextIsPieces(rest);
      ps := [p] + more;
      assert ps[1..] == more;
    }
  }
}
