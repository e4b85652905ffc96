/**
  The rsign key file of scripts/extract-updater-seed.py: locating the sealed
  blob in a file, opening it, and the builder that seals one.  scrypt, BLAKE2b,
  base64 and UTF-8 decoding are parameters of which only the stated laws are
  used.
 */
module KeyFile {
  import opened PyText
  import opened ScryptParams

  type byte = n: int | 0 <= n < 0x100

  type Bytes = seq<byte>

  /** The functions of the standard library; scrypt yields nothing where it raises an error. */
  datatype Crypto = Crypto(
    scrypt: (Bytes, Bytes, Params) -> Option<Bytes>,
    blake2b: Bytes -> Bytes,
    encode64: Bytes -> string,
    decode64: (Bytes, bool) -> Option<Bytes>,
    utf8: Bytes -> string)

  const STREAM_LEN := 104
  const BLOB_LEN := 158
  const ED: Bytes := [0x45, 0x64]
  const SC: Bytes := [0x53, 0x63]
  const B2: Bytes := [0x42, 0x32]
  const MAGIC: Bytes := [0x45, 0x64, 0x53, 0x63, 0x42, 0x32]

  predicate IsAscii(s: string) {
    forall i :: 0 <= i < |s| ==> s[i] < 128 as char
  }

  function AsciiBytes(s: string): (b: Bytes)
    requires IsAscii(s)
    ensures |b| == |s|
  {
    seq(|s|, i requires 0 <= i < |s| => s[i] as int)
  }

  predicate IsBase64(s: string) {
    forall i :: 0 <= i < |s| ==> IsLetter(s[i]) || '0' <= s[i] <= '9' || s[i] == '+' || s[i] == '/' || s[i] == '='
  }

  /** What is assumed of the library. */
  ghost predicate Lawful(c: Crypto) {
    && (forall password, salt, q :: c.scrypt(password, salt, q).Some? ==> |c.scrypt(password, salt, q).value| == STREAM_LEN)
    && (forall b :: |c.blake2b(b)| == 32)
    && (forall b :: IsBase64(c.encode64(b)) && IsAscii(c.encode64(b)) && (b != [] ==> c.encode64(b) != ""))
    && (forall b, strict :: IsAscii(c.encode64(b)) ==> c.decode64(AsciiBytes(c.encode64(b)), strict) == Some(b))
    && (forall b :: c.decode64(b, true).Some? ==> c.decode64(b, false) == c.decode64(b, true))
    && (forall s :: IsAscii(s) ==> c.utf8(AsciiBytes(s)) == s)
  }

  // ---------- little-endian numbers ----------

  function Pack(n: nat, width: nat): (b: Bytes)
    ensures |b| == width
  {
    if width == 0 then [] else [n % 256] + Pack(n / 256, width - 1)
  }

  function Unpack(b: Bytes): nat {
    if b == [] then 0 else b[0] + 256 * Unpack(b[1..])
  }

  function Limit(width: nat): nat {
    if width == 0 then 1 else 256 * Limit(width - 1)
  }

  lemma {:induction false} UnpackOfPack(n: nat, width: nat)
    requires n < Limit(width)
    ensures Unpack(Pack(n, width)) == n
  {
    if width > 0 {
      UnpackOfPack(n / 256, width - 1);
      assert Pack(n, width)[1..] == Pack(n / 256, width - 1);
    }
  }

  lemma {:induction false} PackOfUnpack(b: Bytes)
    ensures Unpack(b) < Limit(|b|) && Pack(Unpack(b), |b|) == b
  {
    if b != [] {
      PackOfUnpack(b[1..]);
      assert Unpack(b) % 256 == b[0] && Unpack(b) / 256 == Unpack(b[1..]);
    }
  }

  lemma EightBytes()
    ensures Limit(8) == U64
  {
    assert Limit(4) == 0x1_0000_0000;
  }

  // ---------- the stream ----------

  /** The exclusive or of the lowest bits of two numbers. */
  function XorBits(a: nat, b: nat, bits: nat): nat {
    if bits == 0 then 0 else (if a % 2 == b % 2 then 0 else 1) + 2 * XorBits(a / 2, b / 2, bits - 1)
  }

  lemma {:induction false} XorBitsTwice(a: nat, b: nat, bits: nat)
    requires a < Pow2(bits)
    ensures XorBits(a, b, bits) < Pow2(bits) && XorBits(XorBits(a, b, bits), b, bits) == a
  {
    if bits > 0 {
      XorBitsTwice(a / 2, b / 2, bits - 1);
      var low := if a % 2 == b % 2 then 0 else 1;
      var x := XorBits(a, b, bits);
      assert x % 2 == low && x / 2 == XorBits(a / 2, b / 2, bits - 1);
    }
  }

  function XorByte(a: byte, b: byte): byte {
    assert Pow2(8) == 256;
    XorBitsTwice(a, b, 8);
    XorBits(a, b, 8)
  }

  /** Bit `k` of a number. */
  function Bit(n: nat, k: nat): nat {
    n / Pow2(k) % 2
  }

  lemma BitAbove(n: nat, k: nat)
    requires k > 0
    ensures Bit(n, k) == Bit(n / 2, k - 1)
  {
    HalvesFirst(n, Pow2(k - 1));
  }

  lemma HalvesFirst(n: nat, p: nat)
    requires p > 0
    ensures n / (2 * p) == n / 2 / p
  {
    var q, r := n / (2 * p), n % (2 * p);
    assert n == 2 * p * q + r && r < 2 * p;
    assert n / 2 == p * q + r / 2 by {
      assert n == 2 * (p * q) + r;
    }
    assert 0 <= r / 2 < p;
    QuotientIs(n / 2, p, q, r / 2);
  }

  lemma QuotientIs(n: nat, p: nat, q: nat, r: nat)
    requires p > 0 && n == p * q + r && r < p
    ensures n / p == q
  {
    var x := n / p;
    assert n == p * x + n % p;
    AtLeastOneMore(p, x, q);
    AtLeastOneMore(p, q, x);
  }

  lemma {:induction false} AtLeastOneMore(p: nat, x: nat, y: nat)
    ensures x > y ==> p * x >= p * y + p
    decreases x
  {
    if x > y + 1 {
      AtLeastOneMore(p, x - 1, y);
      assert p * x == p * (x - 1) + p;
    } else if x == y + 1 {
      assert p * (y + 1) == p * y + p;
    }
  }

  /** Each bit of the result is 1 exactly when the two bits at its place differ. */
  lemma {:induction false} XorBitsBit(a: nat, b: nat, bits: nat, k: nat)
    requires k < bits
    ensures Bit(XorBits(a, b, bits), k) == if Bit(a, k) == Bit(b, k) then 0 else 1
  {
    var x := XorBits(a, b, bits);
    if k == 0 {
      assert Pow2(0) == 1;
    } else {
      assert x / 2 == XorBits(a / 2, b / 2, bits - 1);
      BitAbove(x, k);
      BitAbove(a, k);
      BitAbove(b, k);
      XorBitsBit(a / 2, b / 2, bits - 1, k - 1);
    }
  }

  /** Exclusive or: bit by bit, with 0 it changes nothing, and with itself it gives 0. */
  lemma XorByteBits(a: byte, b: byte)
    ensures forall k :: 0 <= k < 8 ==> Bit(XorByte(a, b), k) == if Bit(a, k) == Bit(b, k) then 0 else 1
    ensures XorByte(a, 0) == XorByte(0, a) == a && XorByte(a, a) == 0
  {
    forall k | 0 <= k < 8
      ensures Bit(XorByte(a, b), k) == if Bit(a, k) == Bit(b, k) then 0 else 1
    {
      XorBitsBit(a, b, 8, k);
    }
    assert Pow2(8) == 256;
    XorWithZero(a, 8);
  }

  lemma {:induction false} XorWithZero(a: nat, bits: nat)
    requires a < Pow2(bits)
    ensures XorBits(a, 0, bits) == XorBits(0, a, bits) == a && XorBits(a, a, bits) == 0
  {
    if bits > 0 {
      XorWithZero(a / 2, bits - 1);
    }
  }

  /** bytes(x ^ y for x, y in zip(a, b)) */
  function Xor(a: Bytes, b: Bytes): (r: Bytes)
    ensures |r| == if |a| < |b| then |a| else |b|
  {
    seq(if |a| < |b| then |a| else |b|, i requires 0 <= i < |a| && i < |b| => XorByte(a[i], b[i]))
  }

  lemma XorTwice(a: Bytes, b: Bytes)
    requires |a| <= |b|
    ensures Xor(Xor(a, b), b) == a
  {
    forall i | 0 <= i < |a|
      ensures Xor(Xor(a, b), b)[i] == a[i]
    {
      assert Pow2(8) == 256;
      XorBitsTwice(a[i], b[i], 8);
    }
  }

  // ---------- the blob ----------

  datatype Fields = Fields(salt: Bytes, opslimit: nat, memlimit: nat, keynum: Bytes, sk: Bytes, chk: Bytes)

  predicate GoodFields(f: Fields) {
    |f.salt| == 32 && f.opslimit < U64 && f.memlimit < U64 && |f.keynum| == 8 && |f.sk| == 64 && |f.chk| == 32
  }

  datatype Error = BadHeader | NoBlob | ScryptFailed | ChecksumMismatch

  datatype Result<T> = Ok(value: T) | Err(error: Error)

  function ParseBlob(blob: Bytes): (r: Result<Fields>)
    requires |blob| == BLOB_LEN
    ensures r.Ok? ==> GoodFields(r.value)
  {
    if blob[0..2] != ED || blob[2..4] != SC || blob[4..6] != B2 then Err(BadHeader)
    else
      EightBytes();
      PackOfUnpack(blob[38..46]);
      PackOfUnpack(blob[46..54]);
      Ok(Fields(blob[6..38], Unpack(blob[38..46]), Unpack(blob[46..54]), blob[54..62], blob[62..126], blob[126..158]))
  }

  function PrintBlob(f: Fields): Bytes {
    ED + SC + B2 + f.salt + Pack(f.opslimit, 8) + Pack(f.memlimit, 8) + f.keynum + f.sk + f.chk
  }

  lemma NinePieces(a: Bytes, b: Bytes, c: Bytes, d: Bytes, e: Bytes, f: Bytes, g: Bytes, h: Bytes, i: Bytes)
    requires |a| == |b| == |c| == 2 && |d| == 32 && |e| == |f| == |g| == 8 && |h| == 64 && |i| == 32
    ensures var s := a + b + c + d + e + f + g + h + i;
            && |s| == BLOB_LEN && s[0..2] == a && s[2..4] == b && s[4..6] == c && s[6..38] == d && s[38..46] == e
            && s[46..54] == f && s[54..62] == g && s[62..126] == h && s[126..158] == i
  {
  }

  lemma ParseOfPrint(f: Fields)
    requires GoodFields(f)
    ensures |PrintBlob(f)| == BLOB_LEN && ParseBlob(PrintBlob(f)) == Ok(f) && PrintBlob(f)[..6] == MAGIC
  {
    NinePieces(ED, SC, B2, f.salt, Pack(f.opslimit, 8), Pack(f.memlimit, 8), f.keynum, f.sk, f.chk);
    EightBytes();
    UnpackOfPack(f.opslimit, 8);
    UnpackOfPack(f.memlimit, 8);
    Header(PrintBlob(f));
  }

  lemma Header(blob: Bytes)
    requires |blob| == BLOB_LEN
    ensures blob[..6] == MAGIC <==> blob[0..2] == ED && blob[2..4] == SC && blob[4..6] == B2
  {
    assert blob[..6] == blob[0..2] + blob[2..4] + blob[4..6];
    assert MAGIC == ED + SC + B2;
    assert MAGIC[..2] == ED && MAGIC[2..4] == SC && MAGIC[4..] == B2;
    assert blob[..6][..2] == blob[0..2] && blob[..6][2..4] == blob[2..4] && blob[..6][4..] == blob[4..6];
  }

  lemma PrintOfParse(blob: Bytes)
    requires |blob| == BLOB_LEN && ParseBlob(blob).Ok?
    ensures PrintBlob(ParseBlob(blob).value) == blob
  {
    PackOfUnpack(blob[38..46]);
    PackOfUnpack(blob[46..54]);
    NineSlices(blob);
  }

  lemma NineSlices(s: Bytes)
    requires |s| == BLOB_LEN
    ensures s[0..2] + s[2..4] + s[4..6] + s[6..38] + s[38..46] + s[46..54] + s[54..62] + s[62..126] + s[126..158] == s
  {
  }

  /** Byte `j` of a little-endian number. */
  lemma {:induction false} PackIs(n: nat, width: nat, j: nat)
    requires j < width
    ensures Limit(j) > 0 && Pack(n, width)[j] == n / Limit(j) % 256
  {
    if j > 0 {
      PackIs(n / 256, width - 1, j - 1);
      DividesBy256(n, Limit(j - 1));
    }
  }

  lemma DividesBy256(n: nat, p: nat)
    requires p > 0
    ensures n / (256 * p) == n / 256 / p
  {
    var q, r := n / (256 * p), n % (256 * p);
    assert n == 256 * p * q + r && r < 256 * p;
    assert n / 256 == p * q + r / 256 by {
      assert n == 256 * (p * q) + r;
    }
    assert 0 <= r / 256 < p;
    QuotientIs(n / 256, p, q, r / 256);
  }

  /** The layout of a blob: "EdScB2", salt, the two limits little-endian, key number, key and checksum. */
  lemma BlobLayout(f: Fields)
    requires GoodFields(f)
    ensures var b := PrintBlob(f);
            && |b| == 158 && b[..6] == [0x45, 0x64, 0x53, 0x63, 0x42, 0x32] && b[6..38] == f.salt
            && (forall j :: 0 <= j < 8 ==> Limit(j) > 0 && b[38 + j] == f.opslimit / Limit(j) % 256 && b[46 + j] == f.memlimit / Limit(j) % 256)
            && b[54..158] == f.keynum + f.sk + f.chk
  {
    var b := PrintBlob(f);
    var ops, mem := Pack(f.opslimit, 8), Pack(f.memlimit, 8);
    ParseOfPrint(f);
    NinePieces(ED, SC, B2, f.salt, ops, mem, f.keynum, f.sk, f.chk);
    forall j | 0 <= j < 8
      ensures Limit(j) > 0 && b[38 + j] == f.opslimit / Limit(j) % 256 && b[46 + j] == f.memlimit / Limit(j) % 256
    {
      PackIs(f.opslimit, 8, j);
      PackIs(f.memlimit, 8, j);
      assert b[38 + j] == b[38..46][j] && b[46 + j] == b[46..54][j];
    }
    assert b[54..158] == b[54..62] + b[62..126] + b[126..158];
  }

  // ---------- sealing and opening ----------

  ghost function Stream(c: Crypto, password: Bytes, salt: Bytes, opslimit: nat, memlimit: nat): Option<Bytes>
    requires opslimit < U64 && memlimit < U64
  {
    c.scrypt(password, salt, Best(opslimit, memlimit))
  }

  /** What the XOR of a blob's last three fields with the stream gives. */
  function Unmask(f: Fields, stream: Bytes): (g: Fields)
    requires GoodFields(f) && |stream| == STREAM_LEN
    ensures GoodFields(g)
  {
    f.(keynum := Xor(f.keynum, stream[0..8]), sk := Xor(f.sk, stream[8..72]), chk := Xor(f.chk, stream[72..104]))
  }

  lemma UnmaskTwice(f: Fields, stream: Bytes)
    requires GoodFields(f) && |stream| == STREAM_LEN
    ensures Unmask(Unmask(f, stream), stream) == f
  {
    XorTwice(f.keynum, stream[0..8]);
    XorTwice(f.sk, stream[8..72]);
    XorTwice(f.chk, stream[72..104]);
  }

  /** `build_blob_for_self_test` up to the blob. */
  ghost function Sealed(c: Crypto, password: Bytes, salt: Bytes, keynum: Bytes, sk: Bytes, opslimit: nat, memlimit: nat): Option<Bytes>
    requires Lawful(c) && |salt| == 32 && |keynum| == 8 && |sk| == 64 && opslimit < U64 && memlimit < U64
  {
    var stream := Stream(c, password, salt, opslimit, memlimit);
    if stream.None? then None
    else Some(PrintBlob(Unmask(Fields(salt, opslimit, memlimit, keynum, sk, c.blake2b(ED + keynum + sk)), stream.value)))
  }

  /** The wire format: after 54 bytes in the clear, byte `j` of key number, key and checksum is the exclusive or of
      the plain byte and byte `j` of the stream. */
  lemma SealedFormat(c: Crypto, password: Bytes, salt: Bytes, keynum: Bytes, sk: Bytes, opslimit: nat, memlimit: nat)
    requires Lawful(c) && |salt| == 32 && |keynum| == 8 && |sk| == 64 && opslimit < U64 && memlimit < U64
    ensures var blob, stream := Sealed(c, password, salt, keynum, sk, opslimit, memlimit), c.scrypt(password, salt, Best(opslimit, memlimit));
            var plain := keynum + sk + c.blake2b([0x45, 0x64] + keynum + sk);
            && (blob.Some? <==> stream.Some?)
            && (blob.Some? ==>
                  && |blob.value| == 158 && |stream.value| == |plain| == 104
                  && blob.value[..6] == [0x45, 0x64, 0x53, 0x63, 0x42, 0x32] && blob.value[6..38] == salt
                  && (forall j, k :: 0 <= j < 104 && 0 <= k < 8 ==>
                        Bit(blob.value[54 + j], k) == if Bit(plain[j], k) == Bit(stream.value[j], k) then 0 else 1))
  {
    var blob, stream := Sealed(c, password, salt, keynum, sk, opslimit, memlimit), c.scrypt(password, salt, Best(opslimit, memlimit));
    var f := Fields(salt, opslimit, memlimit, keynum, sk, c.blake2b(ED + keynum + sk));
    if blob.Some? {
      var plain, g := keynum + sk + f.chk, Unmask(f, stream.value);
      BlobLayout(g);
      UnmaskedBytes(f, stream.value);
      forall j, k | 0 <= j < 104 && 0 <= k < 8
        ensures Bit(blob.value[54 + j], k) == if Bit(plain[j], k) == Bit(stream.value[j], k) then 0 else 1
      {
        assert blob.value[54 + j] == blob.value[54..158][j] == XorByte(plain[j], stream.value[j]);
        XorByteBits(plain[j], stream.value[j]);
      }
    }
  }

  lemma UnmaskedBytes(f: Fields, stream: Bytes)
    requires GoodFields(f) && |stream| == STREAM_LEN
    ensures var g := Unmask(f, stream);
            && |g.keynum + g.sk + g.chk| == |f.keynum + f.sk + f.chk| == 104
            && forall j :: 0 <= j < 104 ==> (g.keynum + g.sk + g.chk)[j] == XorByte((f.keynum + f.sk + f.chk)[j], stream[j])
  {
  }

  datatype KeyPair = KeyPair(seed: Bytes, pubkey: Bytes)

  /** `decrypt` from the blob on. */
  ghost function Opened(c: Crypto, password: Bytes, blob: Bytes): Result<KeyPair>
    requires Lawful(c) && |blob| == BLOB_LEN
  {
    var parsed := ParseBlob(blob);
    if parsed.Err? then Err(parsed.error)
    else
      var f := parsed.value;
      var stream := Stream(c, password, f.salt, f.opslimit, f.memlimit);
      if stream.None? then Err(ScryptFailed)
      else
        var g := Unmask(f, stream.value);
        if c.blake2b(ED + g.keynum + g.sk) != g.chk then Err(ChecksumMismatch)
        else Ok(KeyPair(g.sk[0..32], g.sk[32..64]))
  }

  /** The blob is what the builder makes of this key pair with these values. */
  ghost predicate SealedWith(c: Crypto, password: Bytes, blob: Bytes, pair: KeyPair, salt: Bytes, keynum: Bytes,
                             opslimit: nat, memlimit: nat)
    requires Lawful(c)
  {
    && |pair.seed| == |pair.pubkey| == 32 && |salt| == 32 && |keynum| == 8 && opslimit < U64 && memlimit < U64
    && Sealed(c, password, salt, keynum, pair.seed + pair.pubkey, opslimit, memlimit) == Some(blob)
  }

  ghost predicate SealedFrom(c: Crypto, password: Bytes, blob: Bytes, pair: KeyPair)
    requires Lawful(c)
  {
    exists salt: Bytes, keynum: Bytes, opslimit: nat, memlimit: nat ::
      SealedWith(c, password, blob, pair, salt, keynum, opslimit, memlimit)
  }

  /** What the builder seals, the same password opens. */
  lemma SealThenOpen(c: Crypto, password: Bytes, salt: Bytes, keynum: Bytes, sk: Bytes, opslimit: nat, memlimit: nat)
    requires Lawful(c) && |salt| == 32 && |keynum| == 8 && |sk| == 64 && opslimit < U64 && memlimit < U64
    ensures var blob := Sealed(c, password, salt, keynum, sk, opslimit, memlimit);
            blob.Some? ==>
              && |blob.value| == BLOB_LEN && blob.value[..6] == MAGIC
              && Opened(c, password, blob.value) == Ok(KeyPair(sk[0..32], sk[32..64]))
  {
    var stream := Stream(c, password, salt, opslimit, memlimit);
    if stream.Some? {
      var f := Fields(salt, opslimit, memlimit, keynum, sk, c.blake2b(ED + keynum + sk));
      UnmaskTwice(f, stream.value);
      ParseOfPrint(Unmask(f, stream.value));
    }
  }

  /** A blob opens as a key pair exactly when the builder makes it from that pair under this password. */
  lemma OpensIff(c: Crypto, password: Bytes, blob: Bytes, pair: KeyPair)
    requires Lawful(c) && |blob| == BLOB_LEN
    ensures Opened(c, password, blob) == Ok(pair) <==> SealedFrom(c, password, blob, pair)
  {
    if SealedFrom(c, password, blob, pair) {
      var salt: Bytes, keynum: Bytes, opslimit: nat, memlimit: nat :|
        SealedWith(c, password, blob, pair, salt, keynum, opslimit, memlimit);
      SealedOpens(c, password, blob, pair, salt, keynum, opslimit, memlimit);
    }
    if Opened(c, password, blob) == Ok(pair) {
      OpenedIsSealed(c, password, blob, pair);
    }
  }

  lemma SealedOpens(c: Crypto, password: Bytes, blob: Bytes, pair: KeyPair, salt: Bytes, keynum: Bytes,
                    opslimit: nat, memlimit: nat)
    requires Lawful(c) && SealedWith(c, password, blob, pair, salt, keynum, opslimit, memlimit)
    ensures |blob| == BLOB_LEN && Opened(c, password, blob) == Ok(pair)
  {
    var sk := pair.seed + pair.pubkey;
    SealThenOpen(c, password, salt, keynum, sk, opslimit, memlimit);
    assert sk[0..32] == pair.seed && sk[32..64] == pair.pubkey;
  }

  lemma OpenedIsSealed(c: Crypto, password: Bytes, blob: Bytes, pair: KeyPair)
    requires Lawful(c) && |blob| == BLOB_LEN && Opened(c, password, blob) == Ok(pair)
    ensures SealedFrom(c, password, blob, pair)
  {
    var f := ParseBlob(blob).value;
    var stream := Stream(c, password, f.salt, f.opslimit, f.memlimit).value;
    var g := Unmask(f, stream);
    UnmaskTwice(f, stream);
    PrintOfParse(blob);
    assert g.sk == pair.seed + pair.pubkey;
    assert g == Fields(g.salt, g.opslimit, g.memlimit, g.keynum, g.sk, c.blake2b(ED + g.keynum + g.sk));
    assert SealedWith(c, password, blob, pair, g.salt, g.keynum, g.opslimit, g.memlimit);
  }

  // ---------- the file ----------

  /** Where splitlines breaks a decoded text. */
  predicate BreaksText(c: char) {
    IsBreak(c) || c == '\r'
  }

  /** The lines of a text, and perhaps empty ones besides, which the scan skips. */
  function TextLines(s: string): (lines: seq<string>)
    ensures lines != []
  {
    if s == "" then [""]
    else
      var rest := TextLines(s[1..]);
      if BreaksText(s[0]) then [""] + rest else [[s[0]] + rest[0]] + rest[1..]
  }

  function Strip(s: string): string {
    RStrip(LStrip(s))
  }

  const UNTRUSTED := "untrusted comment"
  const TRUSTED := "trusted comment"

  /** base64.b64decode of a string, which has to be ASCII. */
  function DecodeText(c: Crypto, s: string, strict: bool): Option<Bytes> {
    if IsAscii(s) then c.decode64(AsciiBytes(s), strict) else None
  }

  /** The line holds a blob. */
  predicate HoldsBlob(c: Crypto, line: string) {
    && line != "" && !StartsWith(line, UNTRUSTED) && !StartsWith(line, TRUSTED)
    && DecodeText(c, line, true).Some?
    && |DecodeText(c, line, true).value| == BLOB_LEN && DecodeText(c, line, true).value[..6] == MAGIC
  }

  function FirstBlobLine(c: Crypto, lines: seq<string>): Option<string> {
    if lines == [] then None
    else if HoldsBlob(c, Strip(lines[0])) then Some(Strip(lines[0]))
    else FirstBlobLine(c, lines[1..])
  }

  /** The rsign text of a file, which may itself be base64. */
  function TextOf(c: Crypto, raw: Bytes): string {
    var text := c.utf8(raw);
    if StartsWith(LStrip(text), UNTRUSTED) then text
    else match c.decode64(raw, false)
      case Some(inner) => c.utf8(inner)
      case None => text
  }

  /** The blob that is found in a file. */
  function Located(c: Crypto, raw: Bytes): Option<Bytes> {
    var line := FirstBlobLine(c, TextLines(TextOf(c, raw)));
    if line.None? then None else DecodeText(c, line.value, false)
  }

  lemma {:induction false} FirstHolds(c: Crypto, lines: seq<string>)
    ensures FirstBlobLine(c, lines).Some? ==> HoldsBlob(c, FirstBlobLine(c, lines).value)
  {
    if lines != [] {
      FirstHolds(c, lines[1..]);
    }
  }

  lemma LocatedIsBlob(c: Crypto, raw: Bytes)
    requires Lawful(c)
    ensures Located(c, raw).Some? ==> |Located(c, raw).value| == BLOB_LEN && Located(c, raw).value[..6] == MAGIC
    ensures FirstBlobLine(c, TextLines(TextOf(c, raw))).Some? ==> Located(c, raw).Some?
  {
    FirstHolds(c, TextLines(TextOf(c, raw)));
  }

  ghost function Decrypted(c: Crypto, password: Bytes, raw: Bytes): Result<KeyPair>
    requires Lawful(c)
  {
    LocatedIsBlob(c, raw);
    if Located(c, raw).None? then Err(NoBlob) else Opened(c, password, Located(c, raw).value)
  }

  /** The scan of `parse_key_file`. */
  method FindBlobLine(c: Crypto, text: string) returns (found: Option<string>)
    ensures found == FirstBlobLine(c, TextLines(text))
  {
    var lines := TextLines(text);
    found := None;
    for i := 0 to |lines|
      invariant found.None? && FirstBlobLine(c, lines[i..]) == FirstBlobLine(c, lines)
    {
      var line := Strip(lines[i]);
      assert lines[i..][0] == lines[i] && lines[i..][1..] == lines[i + 1..];
      if line == "" || StartsWith(line, UNTRUSTED) || StartsWith(line, TRUSTED) {
        continue;
      }
      var candidate := DecodeText(c, line, true);
      if candidate.None? {
        continue;
      }
      if |candidate.value| == BLOB_LEN && candidate.value[..6] == MAGIC {
        found := Some(line);
        return;
      }
    }
  }

  method ParseKeyFile(c: Crypto, raw: Bytes) returns (r: Result<Fields>)
    requires Lawful(c)
    ensures r.Ok? ==> GoodFields(r.value)
    ensures Located(c, raw).None? ==> r == Err(NoBlob)
    ensures Located(c, raw).Some? ==> |Located(c, raw).value| == BLOB_LEN && r == ParseBlob(Located(c, raw).value)
  {
    LocatedIsBlob(c, raw);
    var text := TextOf(c, raw);
    var line := FindBlobLine(c, text);
    if line.None? {
      return Err(NoBlob);
    }
    var blob := DecodeText(c, line.value, false);
    r := ParseBlob(blob.value);
  }

  method Decrypt(c: Crypto, password: Bytes, raw: Bytes) returns (r: Result<KeyPair>)
    requires Lawful(c)
    ensures r == Decrypted(c, password, raw)
  {
    var parsed := ParseKeyFile(c, raw);
    if parsed.Err? {
      return Err(parsed.error);
    }
    var f := parsed.value;
    var q := PickParams(f.opslimit, f.memlimit);
    var stream := c.scrypt(password, f.salt, q);
    if stream.None? {
      return Err(ScryptFailed);
    }
    var g := Unmask(f, stream.value);
    if c.blake2b(ED + g.keynum + g.sk) != g.chk {
      return Err(ChecksumMismatch);
    }
    r := Ok(KeyPair(g.sk[0..32], g.sk[32..64]));
  }

  // ---------- the round trip ----------

  const COMMENT := UNTRUSTED + ": rsign encrypted secret key"

  /** The rsign text around a blob. */
  function PlainText(c: Crypto, blob: Bytes): string {
    COMMENT + "\n" + c.encode64(blob) + "\n"
  }

  /** The file as the builder leaves it, the text in base64 once more. */
  function WrappedFile(c: Crypto, blob: Bytes): Bytes
    requires Lawful(c)
  {
    PlainTextIsAscii(c, blob);
    AsciiBytes(c.encode64(AsciiBytes(PlainText(c, blob))))
  }

  lemma PlainTextIsAscii(c: Crypto, blob: Bytes)
    requires Lawful(c)
    ensures IsAscii(PlainText(c, blob))
  {
    CommentLine();
  }

  /** `build_blob_for_self_test` for given random values. */
  method BuildKeyFile(c: Crypto, password: Bytes, salt: Bytes, keynum: Bytes, sk: Bytes, opslimit: nat, memlimit: nat)
    returns (file: Option<Bytes>)
    requires Lawful(c) && |salt| == 32 && |keynum| == 8 && |sk| == 64 && opslimit < U64 && memlimit < U64
    ensures var blob := Sealed(c, password, salt, keynum, sk, opslimit, memlimit);
            file == if blob.Some? then Some(WrappedFile(c, blob.value)) else None
  {
    var chk := c.blake2b(ED + keynum + sk);
    var q := PickParams(opslimit, memlimit);
    var stream := c.scrypt(password, salt, q);
    if stream.None? {
      return None;
    }
    var blob := PrintBlob(Unmask(Fields(salt, opslimit, memlimit, keynum, sk, chk), stream.value));
    file := Some(WrappedFile(c, blob));
  }

  predicate Printable(s: string) {
    forall i :: 0 <= i < |s| ==> ' ' <= s[i] <= '~'
  }

  lemma PrintableLine(s: string)
    requires Printable(s)
    ensures IsAscii(s) && forall i :: 0 <= i < |s| ==> !BreaksText(s[i])
  {
  }

  lemma CommentIsPrintable()
    ensures Printable(COMMENT) && COMMENT[0] == 'u'
  {
    var more := ": rsign encrypted secret key";
    assert Printable(UNTRUSTED);
    assert Printable(more);
    assert COMMENT == UNTRUSTED + more;
  }

  /** The comment line, as a line and as the start of the text. */
  lemma CommentLine()
    ensures IsAscii(COMMENT) && forall i :: 0 <= i < |COMMENT| ==> !BreaksText(COMMENT[i])
    ensures forall rest :: StartsWith(LStrip(COMMENT + rest), UNTRUSTED)
    ensures StartsWith(Strip(COMMENT), UNTRUSTED)
  {
    CommentIsPrintable();
    PrintableLine(COMMENT);
    forall rest
      ensures StartsWith(LStrip(COMMENT + rest), UNTRUSTED)
    {
      assert (COMMENT + rest)[0] == 'u' && LStrip(COMMENT + rest) == COMMENT + rest;
      assert (COMMENT + rest)[..|UNTRUSTED|] == UNTRUSTED;
    }
    StripKeepsEnd();
  }

  lemma StripKeepsEnd()
    ensures StartsWith(Strip(COMMENT), UNTRUSTED)
  {
    CommentIsPrintable();
    assert LStrip(COMMENT) == COMMENT;
    assert !IsSpace(COMMENT[|COMMENT| - 1]);
    assert RStrip(COMMENT) == COMMENT;
    assert COMMENT[..|UNTRUSTED|] == UNTRUSTED;
  }

  lemma {:induction false} FirstTextLine(line: string, rest: string)
    requires forall i :: 0 <= i < |line| ==> !BreaksText(line[i])
    ensures TextLines(line + "\n" + rest) == [line] + TextLines(rest)
    decreases |line|
  {
    var s := line + "\n" + rest;
    if line == "" {
      assert s[1..] == rest;
    } else {
      assert s[1..] == line[1..] + "\n" + rest;
      FirstTextLine(line[1..], rest);
      assert [line[0]] + line[1..] == line;
    }
  }

  lemma Base64Line(s: string)
    requires IsBase64(s) && s != ""
    ensures (forall i :: 0 <= i < |s| ==> !BreaksText(s[i]) && !IsSpace(s[i]))
    ensures Strip(s) == s && LStrip(s) == s && !StartsWith(s, UNTRUSTED) && !StartsWith(s, TRUSTED)
  {
    assert UNTRUSTED[9] == ' ' && TRUSTED[7] == ' ';
    assert !IsSpace(s[0]);
  }

  lemma PlainTextLines(c: Crypto, blob: Bytes)
    requires Lawful(c) && blob != []
    ensures TextLines(PlainText(c, blob)) == [COMMENT] + [c.encode64(blob), ""]
  {
    Base64Line(c.encode64(blob));
    CommentLine();
    TwoLines(COMMENT, c.encode64(blob));
  }

  lemma TwoLines(a: string, b: string)
    requires forall i :: 0 <= i < |a| ==> !BreaksText(a[i])
    requires forall i :: 0 <= i < |b| ==> !BreaksText(b[i])
    ensures TextLines(a + "\n" + b + "\n") == [a] + [b, ""]
  {
    FirstTextLine(a, b + "\n");
    FirstTextLine(b, "");
    assert a + "\n" + b + "\n" == a + "\n" + (b + "\n") && b + "\n" + "" == b + "\n";
  }

  lemma BlobLineIsFound(c: Crypto, blob: Bytes)
    requires Lawful(c) && |blob| == BLOB_LEN && blob[..6] == MAGIC
    ensures FirstBlobLine(c, TextLines(PlainText(c, blob))) == Some(c.encode64(blob))
  {
    var line := c.encode64(blob);
    PlainTextLines(c, blob);
    StripKeepsEnd();
    Base64Line(line);
    assert !HoldsBlob(c, Strip(COMMENT)) && HoldsBlob(c, Strip(line));
    var rest := [line, ""];
    assert ([COMMENT] + rest)[0] == COMMENT && ([COMMENT] + rest)[1..] == rest;
  }

  /** Both forms of the file give back their blob. */
  lemma LocatedInFile(c: Crypto, blob: Bytes)
    requires Lawful(c) && |blob| == BLOB_LEN && blob[..6] == MAGIC
    ensures IsAscii(PlainText(c, blob)) && Located(c, AsciiBytes(PlainText(c, blob))) == Some(blob)
    ensures Located(c, WrappedFile(c, blob)) == Some(blob)
  {
    var text := PlainText(c, blob);
    PlainTextIsAscii(c, blob);
    BlobLineIsFound(c, blob);
    TextOfPlain(c, blob);
    TextOfWrapped(c, blob);
    assert DecodeText(c, c.encode64(blob), false) == Some(blob);
  }

  lemma TextOfWrapped(c: Crypto, blob: Bytes)
    requires Lawful(c)
    ensures TextOf(c, WrappedFile(c, blob)) == PlainText(c, blob)
  {
    PlainTextIsAscii(c, blob);
    var inner := AsciiBytes(PlainText(c, blob));
    WrappedLaws(c, inner);
    assert c.utf8(inner) == PlainText(c, blob);
  }

  lemma WrappedLaws(c: Crypto, inner: Bytes)
    requires Lawful(c) && inner != []
    ensures IsAscii(c.encode64(inner)) && TextOf(c, AsciiBytes(c.encode64(inner))) == c.utf8(inner)
  {
    var wrapped := c.encode64(inner);
    EncodedLaws(c, inner);
    Base64Line(wrapped);
    var raw := AsciiBytes(wrapped);
    UnwrapsTo(c, raw, inner);
  }

  /** The laws of an encoded text. */
  lemma EncodedLaws(c: Crypto, inner: Bytes)
    requires Lawful(c) && inner != []
    ensures var wrapped := c.encode64(inner);
            && IsBase64(wrapped) && IsAscii(wrapped) && wrapped != ""
            && c.decode64(AsciiBytes(wrapped), false) == Some(inner) && c.utf8(AsciiBytes(wrapped)) == wrapped
  {
  }

  lemma UnwrapsTo(c: Crypto, raw: Bytes, inner: Bytes)
    requires !StartsWith(LStrip(c.utf8(raw)), UNTRUSTED) && c.decode64(raw, false) == Some(inner)
    ensures TextOf(c, raw) == c.utf8(inner)
  {
  }

  lemma TextOfPlain(c: Crypto, blob: Bytes)
    requires Lawful(c) && IsAscii(PlainText(c, blob))
    ensures TextOf(c, AsciiBytes(PlainText(c, blob))) == PlainText(c, blob)
  {
    CommentLine();
    var rest := "\n" + c.encode64(blob) + "\n";
    assert PlainText(c, blob) == COMMENT + rest;
  }

  /** For every password, salt, key number, secret key and pair of 64-bit limits, decrypting the file
      that was built, wrapped or plain, gives back the two halves of the key. */
  lemma KeyFileRoundTrip(c: Crypto, password: Bytes, salt: Bytes, keynum: Bytes, sk: Bytes, opslimit: nat, memlimit: nat)
    requires Lawful(c) && |salt| == 32 && |keynum| == 8 && |sk| == 64 && opslimit < U64 && memlimit < U64
    ensures var blob := Sealed(c, password, salt, keynum, sk, opslimit, memlimit);
            blob.Some? ==>
              && Decrypted(c, password, WrappedFile(c, blob.value)) == Ok(KeyPair(sk[0..32], sk[32..64]))
              && IsAscii(PlainText(c, blob.value))
              && Decrypted(c, password, AsciiBytes(PlainText(c, blob.value))) == Ok(KeyPair(sk[0..32], sk[32..64]))
  {
    var blob := Sealed(c, password, salt, keynum, sk, opslimit, memlimit);
    if blob.Some? {
      SealThenOpen(c, password, salt, keynum, sk, opslimit, memlimit);
      LocatedInFile(c, blob.value);
    }
  }

  /** A file decrypts to a key pair exactly when the blob located in it is one that the builder makes
      from that pair under this password; in particular its checksum holds. */
  lemma DecryptsIff(c: Crypto, password: Bytes, raw: Bytes, pair: KeyPair)
    requires Lawful(c)
    ensures Decrypted(c, password, raw) == Ok(pair) <==>
            Located(c, raw).Some? && SealedFrom(c, password, Located(c, raw).value, pair)
  {
    LocatedIsBlob(c, raw);
    if Located(c, raw).Some? {
      OpensIff(c, password, Located(c, raw).value, pair);
    }
  }

  // ---------- the laws can hold ----------

  function Hex(b: Bytes): (s: string)
    ensures IsBase64(s) && IsAscii(s) && (b != [] ==> s != "")
  {
    if b == [] then "" else [(65 + b[0] / 16) as char, (65 + b[0] % 16) as char] + Hex(b[1..])
  }

  function Unhex(t: Bytes): Option<Bytes> {
    if t == [] then Some([])
    else if |t| < 2 || !(65 <= t[0] < 81 && 65 <= t[1] < 81) then None
    else
      var rest := Unhex(t[2..]);
      if rest.None? then None else Some([16 * (t[0] - 65) + (t[1] - 65)] + rest.value)
  }

  lemma {:induction false} UnhexOfHex(b: Bytes)
    ensures Unhex(AsciiBytes(Hex(b))) == Some(b)
  {
    if b != [] {
      var t := AsciiBytes(Hex(b));
      assert t[2..] == AsciiBytes(Hex(b[1..]));
      UnhexOfHex(b[1..]);
      assert t[0] == 65 + b[0] / 16 && t[1] == 65 + b[0] % 16;
      assert 16 * (t[0] - 65) + (t[1] - 65) == b[0] && [b[0]] + b[1..] == b;
    }
  }

  function Zeros(n: nat): Bytes {
    seq(n, _ => 0)
  }

  /** Sixteen letters in the place of base64 already satisfy every law. */
  lemma LawsCanHold()
    ensures exists c :: Lawful(c)
  {
    var c := Crypto((_, _, _) => Some(Zeros(STREAM_LEN)), _ => Zeros(32), b => Hex(b), (b, _) => Unhex(b),
                    b => seq(|b|, i requires 0 <= i < |b| => b[i] as char));
    forall b, strict
      ensures c.decode64(AsciiBytes(c.encode64(b)), strict) == Some(b)
    {
      UnhexOfHex(b);
    }
    assert forall s :: IsAscii(s) ==> c.utf8(AsciiBytes(s)) == s;
    assert Lawful(c);
  }
}
