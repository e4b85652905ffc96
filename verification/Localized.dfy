/**
  `blank_localized_subtrees` of scripts/scan-fluent-hardcoded.py: the fallback
  copy inside `<Localized>` elements is replaced by white space, in place, by a
  scanner that counts nesting.  On a printed forest of such elements the scanner
  blanks exactly the elements.
 */
module Localized {
  import opened Sequences
  import opened PyText

  const OPEN := "<Localized"
  const CLOSE := "</Localized>"

  /** `s` continues with `part` at position `k`. */
  predicate At(s: string, k: nat, part: string) {
    k + |part| <= |s| && forall i :: 0 <= i < |part| ==> part[i] == s[k + i]
  }

  predicate Opens(s: string, k: nat) {
    At(s, k, OPEN)
  }

  predicate Closes(s: string, k: nat) {
    At(s, k, CLOSE)
  }

  predicate IsDelimiter(c: char) {
    c == '"' || c == '\''
  }

  /** What opens and closes an element, and what delimits a quoted value. */
  lemma MarksAre(s: string, k: nat, c: char)
    ensures Opens(s, k) <==> k + 10 <= |s| && s[k..k + 10] == "<Localized"
    ensures Closes(s, k) <==> k + 12 <= |s| && s[k..k + 12] == "</Localized>"
    ensures IsDelimiter(c) <==> c as int in {34, 39}
  {
    AtIs(s, k, OPEN);
    AtIs(s, k, CLOSE);
  }

  lemma AtIs(s: string, k: nat, part: string)
    ensures At(s, k, part) <==> k + |part| <= |s| && s[k..k + |part|] == part
  {
    if k + |part| <= |s| {
      var t := s[k..k + |part|];
      assert forall i :: 0 <= i < |t| ==> t[i] == s[k + i];
    }
  }

  /** Where the first `>` outside quotes is, or the length of the string. */
  function TagEnd(s: string, k: nat, quote: Option<char>): (m: nat)
    requires k <= |s|
    ensures k <= m <= |s|
    decreases |s| - k
  {
    if k == |s| then k
    else if quote.Some? then TagEnd(s, k + 1, if s[k] == quote.value then None else quote)
    else if IsDelimiter(s[k]) then TagEnd(s, k + 1, Some(s[k]))
    else if s[k] == '>' then k
    else TagEnd(s, k + 1, None)
  }

  /** One turn of the search for the closing tag: where it goes on, and at which depth. */
  function Turn(s: string, k: nat, depth: nat): (r: (nat, nat))
    requires k < |s| && depth > 0
    ensures k < r.0 <= |s|
  {
    if Closes(s, k) then (k + |CLOSE|, depth - 1)
    else if Opens(s, k) then
      var m := TagEnd(s, k + |OPEN|, None);
      if m == |s| then (m, depth) else (m + 1, if s[m - 1] == '/' then depth else depth + 1)
    else (k + 1, depth)
  }

  /** The end of the tag that closes `depth` open elements, from `k` on. */
  function Close(s: string, k: nat, depth: nat): (end: nat)
    requires k <= |s|
    ensures k <= end <= |s|
    decreases |s| - k
  {
    if k == |s| || depth == 0 then k else Close(s, Turn(s, k, depth).0, Turn(s, k, depth).1)
  }

  /** The end of the element at `k`; `k` itself when its opening tag has no end. */
  function ElementEnd(s: string, k: nat): (end: nat)
    requires Opens(s, k)
    ensures k <= end <= |s|
  {
    var m := TagEnd(s, k + |OPEN|, None);
    if m == |s| then k else if s[m - 1] == '/' then m + 1 else Close(s, m + 1, 1)
  }

  /** How far the next turn goes, and whether it blanks. */
  function Next(s: string, k: nat): (r: (nat, bool))
    requires k < |s|
    ensures k < r.0 <= |s|
  {
    if Opens(s, k) && ElementEnd(s, k) > k then (ElementEnd(s, k), true) else (k + 1, false)
  }

  function Piecewise(s: string, blank: bool): (r: string)
    ensures |r| == |s|
  {
    if blank then Whitened(s) else s
  }

  function BlankedFrom(s: string, k: nat): string
    requires k <= |s|
    decreases |s| - k
  {
    if k == |s| then ""
    else Piecewise(s[k..Next(s, k).0], Next(s, k).1) + BlankedFrom(s, Next(s, k).0)
  }

  function Blanked(s: string): string {
    BlankedFrom(s, 0)
  }

  // ---------- the loops ----------

  method FindTagEnd(src: string, from: nat) returns (j: nat)
    requires from <= |src|
    ensures j == TagEnd(src, from, None)
  {
    j := from;
    var quote: Option<char> := None;
    while j < |src|
      invariant from <= j <= |src| && TagEnd(src, j, quote) == TagEnd(src, from, None)
    {
      var c := src[j];
      if quote.Some? {
        if c == quote.value {
          quote := None;
        }
      } else if IsDelimiter(c) {
        quote := Some(c);
      } else if c == '>' {
        break;
      }
      j := j + 1;
    }
  }

  lemma OpensIsNoClose(s: string, k: nat)
    requires Opens(s, k)
    ensures !Closes(s, k)
  {
    assert OPEN[1] == s[k + 1];
    assert CLOSE[1] == '/';
  }

  function Min(a: nat, b: nat): nat {
    if a < b then a else b
  }

  /** The end of the element whose content starts at `from`; one past the text when its last tag is cut off. */
  method FindClose(src: string, from: nat) returns (end: nat)
    requires from <= |src|
    ensures end >= from && Min(end, |src|) == Close(src, from, 1)
  {
    var depth := 1;
    var k := from;
    while k < |src| && depth > 0
      invariant from <= k && Close(src, Min(k, |src|), depth) == Close(src, from, 1)
      decreases |src| - k
    {
      k, depth := SkipOne(src, k, depth);
    }
    end := k;
  }

  method SkipOne(src: string, k: nat, depth: nat) returns (next: nat, left: nat)
    requires k < |src| && depth > 0
    ensures next > k && Turn(src, k, depth) == (Min(next, |src|), left)
  {
    if At(src, k, CLOSE) {
      return k + |CLOSE|, depth - 1;
    }
    if At(src, k, OPEN) {
      // a nested opening tag, which may close itself
      var m := FindTagEnd(src, k + |OPEN|);
      return m + 1, if m < |src| && src[m - 1] != '/' then depth + 1 else depth;
    }
    return k + 1, depth;
  }

  /** src.find(OPEN, i) */
  method FindOpen(src: string, i: nat) returns (start: int)
    ensures start == -1 || (i <= start < |src| && Opens(src, start))
    ensures forall k :: i <= k < (if start == -1 then |src| else start) ==> !Opens(src, k)
  {
    start := i;
    while start < |src|
      invariant i <= start && forall k :: i <= k < start ==> !Opens(src, k)
    {
      if At(src, start, OPEN) {
        return;
      }
      start := start + 1;
    }
    start := -1;
  }

  /** What is written so far, then the blanked rest. */
  ghost predicate Progress(written: string, src: string, i: nat) {
    |written| == |src| && i <= |src| && written[i..] == src[i..] && written[..i] + BlankedFrom(src, i) == Blanked(src)
  }

  lemma Advance(before: string, written: string, src: string, i: nat)
    requires Progress(before, src, i) && i < |src|
    requires written == before[..i] + Piecewise(src[i..Next(src, i).0], Next(src, i).1) + src[Next(src, i).0..]
    ensures Progress(written, src, Next(src, i).0)
  {
    var piece, rest := Piecewise(src[i..Next(src, i).0], Next(src, i).1), BlankedFrom(src, Next(src, i).0);
    assert before[..i] + (piece + rest) == before[..i] + piece + rest;
    assert written[..Next(src, i).0] == before[..i] + piece;
  }

  lemma {:induction false} SkipTo(written: string, src: string, i: nat, j: nat)
    requires Progress(written, src, i) && i <= j <= |src| && forall k :: i <= k < j ==> !Opens(src, k)
    ensures Progress(written, src, j)
    decreases j - i
  {
    if i < j {
      KeepOne(written, src, i);
      SkipTo(written, src, i + 1, j);
    }
  }

  lemma KeepOne(written: string, src: string, i: nat)
    requires Progress(written, src, i) && i < |src| && !Next(src, i).1
    ensures Progress(written, src, i + 1)
  {
    assert written == written[..i] + written[i..] && src[i..] == src[i..i + 1] + src[i + 1..];
    assert written == written[..i] + src[i..i + 1] + src[i + 1..];
    Advance(written, written, src, i);
  }

  /** The innermost loop, over the characters of one element. */
  method BlankRange(out: array<char>, start: nat, end: nat)
    requires start <= end <= out.Length
    modifies out
    ensures BlankedBetween(old(out[..]), out[..], start, end)
  {
    for x := start to end
      invariant BlankedBetween(old(out[..]), out[..], start, x)
    {
      if out[x] != '\n' {
        out[x] := ' ';
      }
    }
  }

  ghost predicate BlankedBetween(before: string, after: string, start: nat, end: nat) {
    && start <= end <= |after| == |before|
    && forall k :: 0 <= k < |after| ==> after[k] == if start <= k < end && before[k] != '\n' then ' ' else before[k]
  }

  lemma PutTogether(before: string, after: string, start: nat, end: nat)
    requires BlankedBetween(before, after, start, end)
    ensures after == before[..start] + Whitened(before[start..end]) + before[end..]
  {
    BlankedPart(before, after, start, end);
    assert after == after[..start] + after[start..end] + after[end..];
    assert after[..start] == before[..start] && after[end..] == before[end..];
  }

  lemma BlankedPart(before: string, after: string, start: nat, end: nat)
    requires BlankedBetween(before, after, start, end)
    ensures after[start..end] == Whitened(before[start..end])
  {
    forall k | start <= k < end
      ensures after[k] == Whitened(before[start..end])[k - start]
    {
      assert before[start..end][k - start] == before[k];
    }
  }

  method BlankLocalizedSubtrees(src: string) returns (result: string)
    ensures result == Blanked(src)
  {
    var out := new char[|src|](i requires 0 <= i < |src| => src[i]);
    var i := 0;
    assert out[..] == src && out[..0] + Blanked(src) == Blanked(src);
    while true
      invariant Progress(out[..], src, Min(i, |src|))
      decreases |src| - i
    {
      var start := FindOpen(src, i);
      if start == -1 {
        SkipTo(out[..], src, Min(i, |src|), |src|);
        break;
      }
      SkipTo(out[..], src, i, start);
      i := BlankElement(out, src, start);
    }
    assert out[..] == out[..|src|] + BlankedFrom(src, |src|);
    result := out[..];
  }

  /** One turn of the outer loop, at an opening tag. */
  method BlankElement(out: array<char>, src: string, start: nat) returns (i: nat)
    requires out.Length == |src| && Opens(src, start) && Progress(out[..], src, start)
    modifies out
    ensures i > start && Progress(out[..], src, Min(i, |src|))
  {
    var found;
    i, found := FindElement(src, start);
    if !found {
      KeepOne(out[..], src, start);
      return;
    }
    BlankNext(out, src, start, Min(i, |src|));
  }

  method FindElement(src: string, start: nat) returns (i: nat, found: bool)
    requires Opens(src, start)
    ensures i > start && Next(src, start) == (Min(i, |src|), found)
  {
    var j := FindTagEnd(src, start + |OPEN|);
    if j >= |src| {
      return start + 1, false;
    }
    i, found := j + 1, true;
    if src[j - 1] != '/' {
      i := FindClose(src, j + 1);
    }
  }

  method BlankNext(out: array<char>, src: string, start: nat, end: nat)
    requires out.Length == |src| && start < |src| && Progress(out[..], src, start) && Next(src, start) == (end, true)
    modifies out
    ensures Progress(out[..], src, end)
  {
    ghost var before := out[..];
    Unwritten(before, src, start, end);
    BlankRange(out, start, end);
    PutTogether(before, out[..], start, end);
    Advance(before, out[..], src, start);
  }

  lemma Unwritten(written: string, src: string, i: nat, j: nat)
    requires |written| == |src| && i <= j <= |src| && written[i..] == src[i..]
    ensures written[i..j] == src[i..j] && written[j..] == src[j..]
  {
    assert written[i..j] == written[i..][..j - i] && src[i..j] == src[i..][..j - i];
    assert written[j..] == written[i..][j - i..] && src[j..] == src[i..][j - i..];
  }

  // ---------- every text ----------

  /** Lengths and line breaks stay; every other character is kept or blanked. */
  lemma {:induction false} RestKeepsOffsets(s: string, k: nat)
    requires k <= |s|
    ensures |BlankedFrom(s, k)| == |s| - k
    ensures forall i :: k <= i < |s| ==> var c := BlankedFrom(s, k)[i - k]; c == s[i] || (c == ' ' && s[i] != '\n')
    decreases |s| - k
  {
    if k < |s| {
      var (n, blank) := Next(s, k);
      var piece := Piecewise(s[k..n], blank);
      RestKeepsOffsets(s, n);
      forall i | k <= i < |s|
        ensures var c := BlankedFrom(s, k)[i - k]; c == s[i] || (c == ' ' && s[i] != '\n')
      {
        if i < n { assert s[k..n][i - k] == s[i]; }
      }
    }
  }

  lemma BlankedKeepsOffsets(s: string)
    ensures |Blanked(s)| == |s|
    ensures forall i :: 0 <= i < |s| ==> Blanked(s)[i] == s[i] || (Blanked(s)[i] == ' ' && s[i] != '\n')
  {
    RestKeepsOffsets(s, 0);
  }

  // ---------- printed forests ----------

  /** Part of a tag outside quotes, or a quoted value. */
  datatype Piece = Bare(text: string) | Quoted(quote: char, text: string)

  datatype Node = Element(attrs: seq<Piece>, body: Forest) | SelfClosing(attrs: seq<Piece>)

  /** Elements with the text before, between and after them. */
  datatype Forest = Tail(text: string) | Item(text: string, node: Node, rest: Forest)

  function PrintPiece(p: Piece): string {
    match p
    case Bare(text) => text
    case Quoted(quote, text) => [quote] + text + [quote]
  }

  function PrintAttrs(attrs: seq<Piece>): string {
    if attrs == [] then "" else PrintPiece(attrs[0]) + PrintAttrs(attrs[1..])
  }

  function PrintNode(node: Node): string {
    match node
    case Element(attrs, body) => OPEN + PrintAttrs(attrs) + ">" + Print(body) + CLOSE
    case SelfClosing(attrs) => OPEN + PrintAttrs(attrs) + "/>"
  }

  function Print(f: Forest): string {
    match f
    case Tail(text) => text
    case Item(text, node, rest) => text + PrintNode(node) + Print(rest)
  }

  /** The forest with its elements blanked out. */
  function Outline(f: Forest): string {
    match f
    case Tail(text) => text
    case Item(text, node, rest) => text + Whitened(PrintNode(node)) + Outline(rest)
  }

  predicate GoodPiece(p: Piece) {
    match p
    case Bare(text) => forall i :: 0 <= i < |text| ==> !IsDelimiter(text[i]) && text[i] != '>'
    case Quoted(quote, text) => IsDelimiter(quote) && forall i :: 0 <= i < |text| ==> text[i] != quote
  }

  predicate GoodAttrs(attrs: seq<Piece>) {
    forall i :: 0 <= i < |attrs| ==> GoodPiece(attrs[i])
  }

  /** Text that holds neither tag string. */
  predicate Plain(text: string) {
    forall k :: 0 <= k < |text| ==> !Opens(text, k) && !Closes(text, k)
  }

  predicate GoodNode(node: Node) {
    match node
    case Element(attrs, body) => GoodAttrs(attrs) && !EndsInSlash(PrintAttrs(attrs)) && Good(body)
    case SelfClosing(attrs) => GoodAttrs(attrs)
  }

  predicate EndsInSlash(s: string) {
    s != "" && s[|s| - 1] == '/'
  }

  predicate Good(f: Forest) {
    match f
    case Tail(text) => Plain(text)
    case Item(text, node, rest) => Plain(text) && GoodNode(node) && Good(rest)
  }

  lemma AtConcat(s: string, k: nat, a: string, b: string)
    ensures At(s, k, a + b) <==> At(s, k, a) && At(s, k + |a|, b)
  {
    if At(s, k, a + b) {
      forall i | 0 <= i < |b|
        ensures b[i] == s[k + |a| + i]
      {
        assert (a + b)[|a| + i] == b[i];
      }
      assert forall i :: 0 <= i < |a| ==> a[i] == (a + b)[i];
    }
  }

  lemma CharsAt(s: string, k: nat, part: string)
    requires At(s, k, part)
    ensures forall i :: k <= i < k + |part| ==> s[i] == part[i - k]
    ensures s[k..k + |part|] == part
  {
    forall i | k <= i < k + |part|
      ensures s[i] == part[i - k]
    {
      assert part[i - k] == s[k + (i - k)];
    }
  }

  lemma {:induction false} QuotedIsSkipped(s: string, k: nat, end: nat, quote: char)
    requires k <= end < |s| && s[end] == quote && forall i :: k <= i < end ==> s[i] != quote
    ensures TagEnd(s, k, Some(quote)) == TagEnd(s, end + 1, None)
    decreases end - k
  {
    if k < end {
      QuotedIsSkipped(s, k + 1, end, quote);
    }
  }

  lemma {:induction false} BareIsSkipped(s: string, k: nat, end: nat)
    requires k <= end <= |s| && forall i :: k <= i < end ==> !IsDelimiter(s[i]) && s[i] != '>'
    ensures TagEnd(s, k, None) == TagEnd(s, end, None)
    decreases end - k
  {
    if k < end {
      BareIsSkipped(s, k + 1, end);
    }
  }

  lemma PieceIsSkipped(s: string, k: nat, p: Piece)
    requires GoodPiece(p) && At(s, k, PrintPiece(p))
    ensures TagEnd(s, k, None) == TagEnd(s, k + |PrintPiece(p)|, None)
  {
    match p {
      case Bare(text) =>
        CharsAt(s, k, text);
        BareIsSkipped(s, k, k + |text|);
      case Quoted(quote, text) =>
        TagParts(s, k, [quote], text, [quote]);
        CharsAt(s, k, [quote]);
        CharsAt(s, k + 1, text);
        CharsAt(s, k + 1 + |text|, [quote]);
        QuotedIsSkipped(s, k + 1, k + 1 + |text|, quote);
    }
  }

  lemma {:induction false} AttrsAreSkipped(s: string, k: nat, attrs: seq<Piece>, end: nat)
    requires GoodAttrs(attrs) && At(s, k, PrintAttrs(attrs)) && end == k + |PrintAttrs(attrs)|
    ensures TagEnd(s, k, None) == TagEnd(s, end, None)
    decreases |attrs|
  {
    if attrs != [] {
      var next := FirstPiece(s, k, attrs);
      PieceIsSkipped(s, k, attrs[0]);
      AttrsAreSkipped(s, next, attrs[1..], end);
    }
  }

  lemma FirstPiece(s: string, k: nat, attrs: seq<Piece>) returns (next: nat)
    requires GoodAttrs(attrs) && At(s, k, PrintAttrs(attrs)) && attrs != []
    ensures next == k + |PrintPiece(attrs[0])| && At(s, k, PrintPiece(attrs[0])) && At(s, next, PrintAttrs(attrs[1..]))
    ensures next + |PrintAttrs(attrs[1..])| == k + |PrintAttrs(attrs)| && GoodAttrs(attrs[1..])
  {
    next := k + |PrintPiece(attrs[0])|;
    AtConcat(s, k, PrintPiece(attrs[0]), PrintAttrs(attrs[1..]));
  }

  /** At the end of the text, or at a tag. */
  predicate AtTag(s: string, k: nat) {
    k <= |s| && (k < |s| ==> s[k] == '<')
  }

  /** No tag string straddles the end of a plain text. */
  lemma NoStraddle(s: string, k: nat, text: string, tag: string)
    requires At(s, k, text) && AtTag(s, k + |text|) && text != "" && !At(text, 0, tag)
    requires forall i :: 1 <= i < |tag| ==> tag[i] != '<'
    ensures !At(s, k, tag)
  {
    if |tag| <= |text| {
      var i :| 0 <= i < |tag| && tag[i] != text[i];
      assert text[i] == s[k + i];
    } else {
      assert tag[|text|] != '<';
    }
  }

  lemma PlainRest(text: string)
    requires Plain(text) && text != ""
    ensures Plain(text[1..]) && !At(text, 0, OPEN) && !At(text, 0, CLOSE)
  {
    forall k | 0 <= k < |text[1..]|
      ensures !Opens(text[1..], k) && !Closes(text[1..], k)
    {
      assert !Opens(text, k + 1) && !Closes(text, k + 1);
    }
    assert !Opens(text, 0) && !Closes(text, 0);
  }

  lemma {:induction false} NoTagInText(s: string, k: nat, text: string, i: nat)
    requires At(s, k, text) && AtTag(s, k + |text|) && Plain(text) && k <= i < k + |text|
    ensures !Opens(s, i) && !Closes(s, i)
    decreases |text|
  {
    PlainRest(text);
    if i == k {
      NoStraddle(s, k, text, OPEN);
      NoStraddle(s, k, text, CLOSE);
    } else {
      assert text == text[..1] + text[1..];
      AtConcat(s, k, text[..1], text[1..]);
      NoTagInText(s, k + 1, text[1..], i);
    }
  }

  lemma {:induction false} CloseWalks(s: string, k: nat, end: nat, depth: nat)
    requires k <= end <= |s| && depth > 0 && forall i :: k <= i < end ==> !Opens(s, i) && !Closes(s, i)
    ensures Close(s, k, depth) == Close(s, end, depth)
    decreases end - k
  {
    if k < end {
      CloseWalks(s, k + 1, end, depth);
    }
  }

  lemma NoTags(s: string, k: nat, text: string, end: nat)
    requires At(s, k, text) && end == k + |text| && AtTag(s, end) && Plain(text)
    ensures forall i :: k <= i < end ==> !Opens(s, i) && !Closes(s, i)
  {
    forall i | k <= i < end
      ensures !Opens(s, i) && !Closes(s, i)
    {
      NoTagInText(s, k, text, i);
    }
  }

  lemma CloseSkipsText(s: string, k: nat, text: string, depth: nat)
    requires At(s, k, text) && AtTag(s, k + |text|) && Plain(text) && depth > 0
    ensures Close(s, k, depth) == Close(s, k + |text|, depth)
  {
    NoTags(s, k, text, k + |text|);
    CloseWalks(s, k, k + |text|, depth);
  }

  /** The opening tag up to its `>`. */
  function TagOf(node: Node): string {
    OPEN + PrintAttrs(node.attrs) + Slash(node)
  }

  function Slash(node: Node): string {
    if node.SelfClosing? then "/" else ""
  }

  lemma TagKind(node: Node)
    requires GoodNode(node)
    ensures EndsInSlash(TagOf(node)) <==> node.SelfClosing?
    ensures |TagOf(node)| >= |OPEN|
  {
    assert PrintAttrs(node.attrs) == "" && node.Element? ==> TagOf(node) == OPEN;
  }

  /** An opening tag is measured whole, and the character before its `>` tells which kind it is. */
  lemma TagIsMeasured(s: string, k: nat, node: Node, m: nat)
    requires GoodNode(node) && At(s, k, TagOf(node)) && m == k + |TagOf(node)| && At(s, m, ">")
    ensures m < |s| && Opens(s, k) && TagEnd(s, k + |OPEN|, None) == m && (s[m - 1] == '/' <==> node.SelfClosing?)
  {
    OpeningIsWhole(s, k, node, m);
    SlashTells(s, k, node, m);
  }

  lemma OpeningIsWhole(s: string, k: nat, node: Node, m: nat)
    requires GoodNode(node) && At(s, k, TagOf(node)) && m == k + |TagOf(node)| && At(s, m, ">")
    ensures m < |s| && Opens(s, k) && TagEnd(s, k + |OPEN|, None) == m
  {
    AttrsAreGood(node);
    var n := OpeningParts(s, k, node, m);
    TagIsWhole(s, k + |OPEN|, AttrsOf(node), n, Slash(node), m);
  }

  lemma AttrsAreGood(node: Node)
    requires GoodNode(node)
    ensures GoodAttrs(AttrsOf(node)) && (Slash(node) == "" || Slash(node) == "/")
  {
  }

  function AttrsOf(node: Node): seq<Piece> {
    node.attrs
  }

  lemma SlashTells(s: string, k: nat, node: Node, m: nat)
    requires GoodNode(node) && At(s, k, TagOf(node)) && m == k + |TagOf(node)|
    ensures k < m && (s[m - 1] == '/' <==> node.SelfClosing?)
  {
    TagKind(node);
    LastCharAt(s, k, TagOf(node));
  }

  lemma TagIsWhole(s: string, k: nat, attrs: seq<Piece>, n: nat, slash: string, m: nat)
    requires GoodAttrs(attrs) && At(s, k, PrintAttrs(attrs)) && n == k + |PrintAttrs(attrs)|
    requires At(s, n, slash) && m == n + |slash| && At(s, m, ">") && (slash == "" || slash == "/")
    ensures m < |s| && TagEnd(s, k, None) == m
  {
    AttrsAreSkipped(s, k, attrs, n);
    SlashIsSkipped(s, n, slash);
  }

  lemma OpeningParts(s: string, k: nat, node: Node, m: nat) returns (n: nat)
    requires At(s, k, TagOf(node)) && m == k + |TagOf(node)|
    ensures Opens(s, k) && At(s, k + |OPEN|, PrintAttrs(AttrsOf(node))) && At(s, n, Slash(node))
    ensures n == k + |OPEN| + |PrintAttrs(AttrsOf(node))| && m == n + |Slash(node)|
  {
    n := k + |OPEN| + |PrintAttrs(node.attrs)|;
    TagParts(s, k, OPEN, PrintAttrs(node.attrs), Slash(node));
  }

  lemma TagParts(s: string, k: nat, a: string, b: string, c: string)
    ensures At(s, k, a + b + c) <==> At(s, k, a) && At(s, k + |a|, b) && At(s, k + |a| + |b|, c)
  {
    AtConcat(s, k, a + b, c);
    AtConcat(s, k, a, b);
  }

  lemma SlashIsSkipped(s: string, k: nat, slash: string)
    requires At(s, k, slash) && At(s, k + |slash|, ">") && (slash == "" || slash == "/")
    ensures TagEnd(s, k, None) == k + |slash|
  {
    CharsAt(s, k, slash);
    CharsAt(s, k + |slash|, ">");
    BareIsSkipped(s, k, k + |slash|);
  }

  lemma LastCharAt(s: string, k: nat, part: string)
    requires At(s, k, part) && part != ""
    ensures s[k + |part| - 1] == part[|part| - 1]
  {
    CharsAt(s, k, part);
  }

  function AfterTag(node: Node): string {
    match node
    case Element(_, body) => Print(body) + CLOSE
    case SelfClosing(_) => ""
  }

  lemma NodeParts(s: string, k: nat, node: Node) returns (m: nat)
    requires At(s, k, PrintNode(node))
    ensures m == k + |TagOf(node)| && At(s, k, TagOf(node)) && At(s, m, ">") && At(s, m + 1, AfterTag(node))
    ensures m + 1 + |AfterTag(node)| == k + |PrintNode(node)|
  {
    m := k + |TagOf(node)|;
    PrintedTag(node);
    TagParts(s, k, TagOf(node), ">", AfterTag(node));
  }

  lemma ElementParts(s: string, k: nat, node: Node) returns (m: nat)
    requires node.Element? && At(s, k, PrintNode(node))
    ensures m == k + |TagOf(node)| && At(s, k, TagOf(node)) && At(s, m, ">") && At(s, m + 1, Print(node.body) + CLOSE)
    ensures m + 1 + |Print(node.body) + CLOSE| == k + |PrintNode(node)|
  {
    m := NodeParts(s, k, node);
    assert AfterTag(node) == Print(node.body) + CLOSE;
  }

  lemma PrintedTag(node: Node)
    ensures PrintNode(node) == TagOf(node) + ">" + AfterTag(node)
  {
  }

  lemma StartsTag(s: string, k: nat)
    ensures Opens(s, k) || Closes(s, k) ==> AtTag(s, k)
  {
    assert OPEN[0] == '<' && CLOSE[0] == '<';
  }

  /** Inside an element, whole elements are stepped over. */
  lemma {:induction false} CloseSkipsForest(s: string, k: nat, f: Forest, depth: nat, end: nat)
    requires Good(f) && At(s, k, Print(f)) && end == k + |Print(f)| && AtTag(s, end) && depth > 0
    ensures Close(s, k, depth) == Close(s, end, depth)
    decreases f, 0
  {
    match f {
      case Tail(text) => CloseSkipsText(s, k, text, depth);
      case Item(text, node, rest) =>
        var i, j := ItemParts(s, k, text, node, rest);
        CloseSkipsText(s, k, text, depth);
        CloseSkipsNode(s, i, node, depth, j);
        CloseSkipsForest(s, j, rest, depth, end);
    }
  }

  lemma ItemParts(s: string, k: nat, text: string, node: Node, rest: Forest) returns (i: nat, j: nat)
    requires GoodNode(node) && At(s, k, Print(Item(text, node, rest)))
    ensures i == k + |text| && j == i + |PrintNode(node)| && k + |Print(Item(text, node, rest))| == j + |Print(rest)|
    ensures At(s, k, text) && At(s, i, PrintNode(node)) && At(s, j, Print(rest)) && AtTag(s, i)
  {
    i, j := k + |text|, k + |text| + |PrintNode(node)|;
    TagParts(s, k, text, PrintNode(node), Print(rest));
    var m := NodeParts(s, i, node);
    TagIsMeasured(s, i, node, m);
    StartsTag(s, i);
  }

  lemma CloseStep(s: string, k: nat, depth: nat)
    requires k < |s| && depth > 0
    ensures Close(s, k, depth) == Close(s, Turn(s, k, depth).0, Turn(s, k, depth).1)
  {
  }

  lemma {:induction false} CloseSkipsNode(s: string, k: nat, node: Node, depth: nat, end: nat)
    requires GoodNode(node) && At(s, k, PrintNode(node)) && depth > 0 && end == k + |PrintNode(node)|
    ensures Close(s, k, depth) == Close(s, end, depth)
    decreases node
  {
    match node {
      case Element(_, body) =>
        var inside := ElementTurns(s, k, node, depth, end);
        ElementSkips(s, k, inside, body, depth, end);
      case SelfClosing(_) => SelfClosingTurns(s, k, node, depth);
    }
  }

  lemma ElementSkips(s: string, k: nat, inside: nat, body: Forest, depth: nat, end: nat)
    requires Good(body) && At(s, inside, Print(body) + CLOSE) && end == inside + |Print(body) + CLOSE|
    requires k <= |s| && Close(s, k, depth) == Close(s, inside, depth + 1)
    ensures Close(s, k, depth) == Close(s, end, depth)
    decreases body, 2
  {
    CloseLeaves(s, inside, body, depth + 1, end);
  }

  lemma ElementTurns(s: string, k: nat, node: Node, depth: nat, end: nat) returns (inside: nat)
    requires node.Element? && GoodNode(node) && At(s, k, PrintNode(node)) && depth > 0 && end == k + |PrintNode(node)|
    ensures At(s, inside, Print(node.body) + CLOSE) && end == inside + |Print(node.body) + CLOSE|
    ensures Close(s, k, depth) == Close(s, inside, depth + 1)
  {
    var m := ElementParts(s, k, node);
    TagTurnsClose(s, k, node, m, depth);
    inside := m + 1;
  }

  lemma TagTurnsClose(s: string, k: nat, node: Node, m: nat, depth: nat)
    requires GoodNode(node) && At(s, k, TagOf(node)) && m == k + |TagOf(node)| && At(s, m, ">") && depth > 0
    ensures m < |s| && Close(s, k, depth) == Close(s, m + 1, if node.SelfClosing? then depth else depth + 1)
  {
    TagIsMeasured(s, k, node, m);
    CloseTurns(s, k, m, depth);
  }

  lemma SelfClosingTurns(s: string, k: nat, node: Node, depth: nat)
    requires node.SelfClosing? && GoodNode(node) && At(s, k, PrintNode(node)) && depth > 0
    ensures Close(s, k, depth) == Close(s, k + |PrintNode(node)|, depth)
  {
    var m := NodeParts(s, k, node);
    TagTurnsClose(s, k, node, m, depth);
  }

  lemma CloseTurns(s: string, k: nat, m: nat, depth: nat)
    requires Opens(s, k) && m == TagEnd(s, k + |OPEN|, None) < |s| && depth > 0
    ensures Close(s, k, depth) == Close(s, m + 1, if s[m - 1] == '/' then depth else depth + 1)
  {
    TagTurns(s, k, m, depth);
    CloseStep(s, k, depth);
  }

  lemma TagTurns(s: string, k: nat, m: nat, depth: nat)
    requires Opens(s, k) && m == TagEnd(s, k + |OPEN|, None) < |s| && depth > 0
    ensures Turn(s, k, depth) == (m + 1, if s[m - 1] == '/' then depth else depth + 1)
  {
    OpensIsNoClose(s, k);
  }

  /** From the content of an element to behind its closing tag. */
  lemma {:induction false} CloseLeaves(s: string, k: nat, body: Forest, depth: nat, end: nat)
    requires Good(body) && At(s, k, Print(body) + CLOSE) && depth > 0 && end == k + |Print(body) + CLOSE|
    ensures Close(s, k, depth) == Close(s, end, depth - 1)
    decreases body, 1
  {
    var tag := k + |Print(body)|;
    AtConcat(s, k, Print(body), CLOSE);
    StartsTag(s, tag);
    CloseSkipsForest(s, k, body, depth, tag);
    CloseStep(s, tag, depth);
  }

  /** The element found at its opening tag is the element that was printed. */
  lemma ElementIsNode(s: string, k: nat, node: Node, end: nat)
    requires GoodNode(node) && At(s, k, PrintNode(node)) && end == k + |PrintNode(node)|
    ensures k < |s| && Next(s, k) == (end, true)
  {
    match node {
      case Element(_, body) =>
        var inside := NextIsInside(s, k, node, end);
        CloseLeaves(s, inside, body, 1, end);
      case SelfClosing(_) => NextIsBehind(s, k, node);
    }
  }

  lemma NextIsInside(s: string, k: nat, node: Node, end: nat) returns (inside: nat)
    requires node.Element? && GoodNode(node) && At(s, k, PrintNode(node)) && end == k + |PrintNode(node)|
    ensures At(s, inside, Print(node.body) + CLOSE) && end == inside + |Print(node.body) + CLOSE|
    ensures k < |s| && Next(s, k) == (Close(s, inside, 1), true)
  {
    var m := ElementParts(s, k, node);
    NextAtTag(s, k, node, m);
    inside := m + 1;
  }

  lemma NextIsBehind(s: string, k: nat, node: Node)
    requires node.SelfClosing? && GoodNode(node) && At(s, k, PrintNode(node))
    ensures k < |s| && Next(s, k) == (k + |PrintNode(node)|, true)
  {
    var m := NodeParts(s, k, node);
    NextAtTag(s, k, node, m);
  }

  lemma NextAtTag(s: string, k: nat, node: Node, m: nat)
    requires GoodNode(node) && At(s, k, TagOf(node)) && m == k + |TagOf(node)| && At(s, m, ">")
    ensures m < |s| && Next(s, k) == (if node.SelfClosing? then m + 1 else Close(s, m + 1, 1), true)
  {
    TagIsMeasured(s, k, node, m);
    ElementAt(s, k, m);
  }

  lemma ElementAt(s: string, k: nat, m: nat)
    requires Opens(s, k) && m == TagEnd(s, k + |OPEN|, None) < |s|
    ensures Next(s, k) == (if s[m - 1] == '/' then m + 1 else Close(s, m + 1, 1), true)
  {
  }

  lemma BlankedNode(s: string, k: nat, node: Node, end: nat)
    requires GoodNode(node) && At(s, k, PrintNode(node)) && end == k + |PrintNode(node)|
    ensures BlankedFrom(s, k) == Whitened(PrintNode(node)) + BlankedFrom(s, end)
  {
    ElementIsNode(s, k, node, end);
  }

  lemma {:induction false} BlankedWalks(s: string, k: nat, end: nat)
    requires k <= end <= |s| && forall i :: k <= i < end ==> !Opens(s, i)
    ensures BlankedFrom(s, k) == s[k..end] + BlankedFrom(s, end)
    decreases end - k
  {
    if k < end {
      BlankedWalks(s, k + 1, end);
      OneMore(s, k, end, BlankedFrom(s, end));
    } else {
      assert s[k..end] == "";
    }
  }

  lemma OneMore(s: string, k: nat, end: nat, rest: string)
    requires k < end <= |s|
    ensures s[k..k + 1] + (s[k + 1..end] + rest) == s[k..end] + rest
  {
    assert s[k..end] == s[k..k + 1] + s[k + 1..end];
  }

  lemma BlankedText(s: string, k: nat, text: string)
    requires At(s, k, text) && AtTag(s, k + |text|) && Plain(text)
    ensures BlankedFrom(s, k) == text + BlankedFrom(s, k + |text|)
  {
    var end := k + |text|;
    TextIsWalked(s, k, text, end);
    assert s[k..end] == text by { CharsAt(s, k, text); }
  }

  lemma TextIsWalked(s: string, k: nat, text: string, end: nat)
    requires At(s, k, text) && end == k + |text| && AtTag(s, end) && Plain(text)
    ensures BlankedFrom(s, k) == s[k..end] + BlankedFrom(s, end)
  {
    NoTags(s, k, text, end);
    BlankedWalks(s, k, end);
  }

  lemma ItemIsBlanked(s: string, k: nat, text: string, node: Node, rest: Forest) returns (j: nat)
    requires GoodNode(node) && Plain(text) && At(s, k, Print(Item(text, node, rest))) && k + |Print(Item(text, node, rest))| == |s|
    ensures At(s, j, Print(rest)) && j + |Print(rest)| == |s|
    ensures BlankedFrom(s, k) == text + Whitened(PrintNode(node)) + BlankedFrom(s, j)
  {
    var i;
    i, j := ItemParts(s, k, text, node, rest);
    BlankedText(s, k, text);
    BlankedNode(s, i, node, j);
    assert text + (Whitened(PrintNode(node)) + BlankedFrom(s, j)) == text + Whitened(PrintNode(node)) + BlankedFrom(s, j);
  }

  lemma {:induction false} ForestIsBlanked(s: string, k: nat, f: Forest)
    requires Good(f) && At(s, k, Print(f)) && k + |Print(f)| == |s|
    ensures BlankedFrom(s, k) == Outline(f)
    decreases f
  {
    match f {
      case Tail(text) =>
        BlankedText(s, k, text);
        assert text + "" == text;
      case Item(text, node, rest) =>
        var j := ItemIsBlanked(s, k, text, node, rest);
        ForestIsBlanked(s, j, rest);
    }
  }

  /** On a printed forest exactly the elements are blanked, nested ones with their parents. */
  lemma BlankingIsExact(f: Forest)
    requires Good(f)
    ensures Blanked(Print(f)) == Outline(f)
  {
    assert Print(f)[0..0 + |Print(f)|] == Print(f);
    ForestIsBlanked(Print(f), 0, f);
  }

  /** For each character of a printed forest, whether it is part of an element. */
  function InElements(f: Forest): (inside: seq<bool>)
    ensures |inside| == |Print(f)|
  {
    match f
    case Tail(text) => Flags(text, false)
    case Item(text, node, rest) => Flags(text, false) + Flags(PrintNode(node), true) + InElements(rest)
  }

  function Flags(text: string, flag: bool): (flags: seq<bool>)
    ensures |flags| == |text|
  {
    seq(|text|, _ => flag)
  }

  ghost predicate BlanksInside(text: string, out: string, inside: seq<bool>) {
    && |out| == |text| == |inside|
    && forall i :: 0 <= i < |text| ==> out[i] == if inside[i] && text[i] != '\n' then ' ' else text[i]
  }

  lemma BlanksJoin(a: string, b: string, x: string, y: string, p: seq<bool>, q: seq<bool>)
    requires BlanksInside(a, x, p) && BlanksInside(b, y, q)
    ensures BlanksInside(a + b, x + y, p + q)
  {
  }

  /** Exactly the characters of elements are blank, but for their line breaks. */
  lemma BlankingShows(f: Forest)
    requires Good(f)
    ensures BlanksInside(Print(f), Blanked(Print(f)), InElements(f))
  {
    BlankingIsExact(f);
    OutlineShows(f);
  }

  lemma {:induction false} OutlineShows(f: Forest)
    ensures BlanksInside(Print(f), Outline(f), InElements(f))
  {
    match f {
      case Tail(text) =>
      case Item(text, node, rest) =>
        var inside := PrintNode(node);
        BlanksJoin(text, inside, text, Whitened(inside), Flags(text, false), Flags(inside, true));
        OutlineShows(rest);
        BlanksJoin(text + inside, Print(rest), text + Whitened(inside), Outline(rest),
                   Flags(text, false) + Flags(inside, true), InElements(rest));
    }
  }
}
