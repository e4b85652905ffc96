/**
  The form of a key file, read without the functions that take it apart: which
  lines are read, which line counts, what the builder writes, and which error a
  file that does not open is answered with.
 */
module KeyFileFormat {
  import opened PyText
  import opened ScryptParams
  import opened KeyFile

  // ---------- the text of a file ----------

  predicate IsPlain(text: string) {
    exists k :: 0 <= k <= |text| && AllSpace(text[..k]) && |text| - k >= 17 && text[k..k + 17] == "untrusted comment"
  }

  lemma PlainIs(text: string)
    ensures StartsWith(LStrip(text), UNTRUSTED) <==> IsPlain(text)
  {
    var i := SpaceEnd(text, 0);
    assert |UNTRUSTED| == 17 && UNTRUSTED[0] == 'u';
    assert AllSpace(text[..i]);
    if |text| - i >= 17 {
      assert LStrip(text)[..17] == text[i..i + 17];
    }
    if k :| 0 <= k <= |text| && AllSpace(text[..k]) && |text| - k >= 17 && text[k..k + 17] == "untrusted comment" {
      assert text[k..k + 17][0] == text[k];
      assert forall j :: 0 <= j < k ==> text[j] == text[..k][j];
      SpaceEndIs(text, 0, k);
    }
  }

  /** The file's own text if it begins, after blanks, with the comment; else what it is the base64 form of, if it is one. */
  lemma TextOfIs(c: Crypto, raw: Bytes)
    ensures TextOf(c, raw) ==
            if IsPlain(c.utf8(raw)) || c.decode64(raw, false).None? then c.utf8(raw) else c.utf8(c.decode64(raw, false).value)
  {
    PlainIs(c.utf8(raw));
  }

  // ---------- its lines ----------

  /** The lines with the line breaks between them. */
  function Woven(lines: seq<string>, breaks: seq<char>): string
    requires |lines| == |breaks| + 1
  {
    if breaks == [] then lines[0] else lines[0] + [breaks[0]] + Woven(lines[1..], breaks[1..])
  }

  predicate IsLineBreak(c: char) {
    var n := c as int;
    10 <= n <= 13 || 28 <= n <= 30 || n == 0x85 || n == 0x2028 || n == 0x2029
  }

  lemma {:induction false} TextLinesAre(s: string) returns (breaks: seq<char>)
    ensures |TextLines(s)| == |breaks| + 1 && s == Woven(TextLines(s), breaks)
    ensures forall i :: 0 <= i < |breaks| ==> IsLineBreak(breaks[i])
    ensures forall i, k :: 0 <= i < |TextLines(s)| && 0 <= k < |TextLines(s)[i]| ==> !IsLineBreak(TextLines(s)[i][k])
  {
    if s == "" {
      breaks := [];
    } else {
      var rest := TextLines(s[1..]);
      var more := TextLinesAre(s[1..]);
      if BreaksText(s[0]) {
        breaks := [s[0]] + more;
        BreakInFront(s, rest, more);
      } else {
        breaks := more;
        CharInFront(s, rest, more);
      }
    }
  }

  lemma BreakInFront(s: string, rest: seq<string>, more: seq<char>)
    requires s != "" && |rest| == |more| + 1 && s[1..] == Woven(rest, more)
    ensures s == Woven([""] + rest, [s[0]] + more)
  {
    assert ([""] + rest)[1..] == rest && ([s[0]] + more)[1..] == more;
    assert s == "" + [s[0]] + s[1..];
  }

  lemma CharInFront(s: string, rest: seq<string>, more: seq<char>)
    requires s != "" && |rest| == |more| + 1 && s[1..] == Woven(rest, more)
    ensures s == Woven([[s[0]] + rest[0]] + rest[1..], more)
  {
    var lines := [[s[0]] + rest[0]] + rest[1..];
    assert lines[1..] == rest[1..];
    assert s == [s[0]] + s[1..];
    if more != [] {
      FourParts([s[0]], rest[0], [more[0]], Woven(rest[1..], more[1..]));
    }
  }

  lemma FourParts(a: string, b: string, c: string, d: string)
    ensures a + (b + c + d) == (a + b) + c + d
  {
  }

  /** A line that is no comment and strictly decodes to 158 bytes that begin with the magic. */
  ghost predicate IsBlobLine(c: Crypto, line: string) {
    && line != "" && !(|line| >= 17 && line[..17] == "untrusted comment") && !(|line| >= 15 && line[..15] == "trusted comment")
    && (forall i :: 0 <= i < |line| ==> line[i] as int < 128)
    && exists b :: DecodeText(c, line, true) == Some(b) && |b| == 158 && b[..6] == [0x45, 0x64, 0x53, 0x63, 0x42, 0x32]
  }

  lemma HoldsBlobIff(c: Crypto, line: string)
    ensures HoldsBlob(c, line) <==> IsBlobLine(c, line)
  {
    assert |UNTRUSTED| == 17 && |TRUSTED| == 15;
    assert IsAscii(line) <==> forall i :: 0 <= i < |line| ==> line[i] as int < 128;
    if HoldsBlob(c, line) {
      assert DecodeText(c, line, true) == Some(DecodeText(c, line, true).value);
    }
  }

  ghost predicate FirstBlobAt(c: Crypto, lines: seq<string>, i: nat, line: string) {
    i < |lines| && Strip(lines[i]) == line && IsBlobLine(c, line) && forall j :: 0 <= j < i ==> !IsBlobLine(c, Strip(lines[j]))
  }

  lemma FirstBlobShifts(c: Crypto, lines: seq<string>, i: nat, line: string)
    requires lines != [] && !IsBlobLine(c, Strip(lines[0]))
    ensures FirstBlobAt(c, lines, i + 1, line) <==> FirstBlobAt(c, lines[1..], i, line)
  {
    var rest := lines[1..];
    assert forall j :: 0 <= j < |rest| ==> rest[j] == lines[j + 1];
    if FirstBlobAt(c, rest, i, line) {
      assert forall j :: 0 < j < i + 1 ==> lines[j] == rest[j - 1];
    }
  }

  /** The first such line of the file, without blanks around it, holds the blob. */
  lemma {:induction false} FirstBlobLineIff(c: Crypto, lines: seq<string>, line: string)
    ensures FirstBlobLine(c, lines) == Some(line) <==> exists i: nat :: FirstBlobAt(c, lines, i, line)
  {
    if lines != [] {
      HoldsBlobIff(c, Strip(lines[0]));
      if IsBlobLine(c, Strip(lines[0])) {
        assert FirstBlobAt(c, lines, 0, Strip(lines[0]));
      } else {
        FirstBlobLineIff(c, lines[1..], line);
        if i: nat :| FirstBlobAt(c, lines[1..], i, line) { FirstBlobShifts(c, lines, i, line); }
        if i: nat :| FirstBlobAt(c, lines, i, line) { FirstBlobShifts(c, lines, i - 1, line); }
      }
    }
  }

  /** What the builder writes: the base64 form of a comment line and a line with the base64 form of the blob. */
  lemma WrappedFileIs(c: Crypto, blob: Bytes)
    requires Lawful(c)
    ensures c.decode64(WrappedFile(c, blob), false) == Some(AsciiBytes(PlainText(c, blob)))
    ensures PlainText(c, blob) == ("untrusted comment" + ": rsign encrypted secret key") + "\n" + c.encode64(blob) + "\n"
  {
    var inner := AsciiBytes(PlainText(c, blob));
    assert IsAscii(c.encode64(inner));
  }

  // ---------- errors ----------

  /** Why a file does not open: no blob is located, scrypt fails on the salt and the limits of the blob, or the
      checksum is another. */
  lemma DecryptFailsIff(c: Crypto, password: Bytes, raw: Bytes)
    requires Lawful(c)
    ensures var r, b := Decrypted(c, password, raw), Located(c, raw);
            && (r == Err(NoBlob) <==> b.None?) && r != Err(BadHeader)
            && (r == Err(ScryptFailed) <==>
                b.Some? && |b.value| == 158
                && c.scrypt(password, b.value[6..38], Best(Unpack(b.value[38..46]), Unpack(b.value[46..54]))).None?)
            && (r == Err(ChecksumMismatch) <==> !r.Ok? && r != Err(NoBlob) && r != Err(ScryptFailed))
  {
    LocatedIsBlob(c, raw);
    if Located(c, raw).Some? {
      Header(Located(c, raw).value);
    }
  }
}
