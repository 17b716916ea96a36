/**
 The base64url text form without padding (section 5 of RFC 4648) that carries the OAuth state. Encoding
 strips the padding; decoding works the padding out again from the length and hands the text to a lenient
 decoder that skips characters outside the alphabet.
 */
module Base64Url {
  type Byte = x: int | 0 <= x < 256
  type Six = x: int | 0 <= x < 64

  datatype Decoded = Bytes(bytes: seq<Byte>) | NotAscii | DanglingSymbol | BadPadding

  predicate UrlSafe(c: char) {
    'A' <= c <= 'Z' || 'a' <= c <= 'z' || '0' <= c <= '9' || c == '-' || c == '_'
  }

  function Symbol(v: Six): (c: char)
    ensures UrlSafe(c)
  {
    if v < 26 then 'A' + v as char
    else if v < 52 then 'a' + (v - 26) as char
    else if v < 62 then '0' + (v - 52) as char
    else if v == 62 then '-' else '_'
  }

  /** The value of a character, or -1 outside the alphabet; '+' and '/' of the plain alphabet also count. */
  function Worth(c: char): (v: int)
    ensures -1 <= v < 64
  {
    if 'A' <= c <= 'Z' then (c - 'A') as int
    else if 'a' <= c <= 'z' then (c - 'a') as int + 26
    else if '0' <= c <= '9' then (c - '0') as int + 52
    else if c == '-' || c == '+' then 62
    else if c == '_' || c == '/' then 63
    else -1
  }

  /** The alphabet, by character code: capitals, small letters, digits, hyphen-minus and low line. */
  lemma SymbolCode(v: Six)
    ensures Symbol(v) as int ==
      if v <= 25 then 65 + v else if v <= 51 then 97 + (v - 26) else if v <= 61 then 48 + (v - 52)
      else if v == 62 then 45 else 95
  {
  }

  lemma WorthOfSymbol(v: Six)
    ensures Worth(Symbol(v)) == v
  {
  }

  /* One, two and three bytes as symbols. */

  function One(a: Byte): (s: string)
    ensures |s| == 2 && forall i :: 0 <= i < |s| ==> UrlSafe(s[i])
  {
    [Symbol(a / 4), Symbol(a % 4 * 16)]
  }

  function Two(a: Byte, b: Byte): (s: string)
    ensures |s| == 3 && forall i :: 0 <= i < |s| ==> UrlSafe(s[i])
  {
    [Symbol(a / 4), Symbol(a % 4 * 16 + b / 16), Symbol(b % 16 * 4)]
  }

  function Three(a: Byte, b: Byte, c: Byte): (s: string)
    ensures |s| == 4 && forall i :: 0 <= i < |s| ==> UrlSafe(s[i])
  {
    [Symbol(a / 4), Symbol(a % 4 * 16 + b / 16), Symbol(b % 16 * 4 + c / 64), Symbol(c % 64)]
  }

  /** Encoding in groups of three bytes, padded with '=' to a multiple of four characters. */
  function Padded(b: seq<Byte>): string {
    if b == [] then ""
    else if |b| == 1 then One(b[0]) + "=="
    else if |b| == 2 then Two(b[0], b[1]) + "="
    else Three(b[0], b[1], b[2]) + Padded(b[3..])
  }

  function RStrip(s: string): string {
    if s != "" && s[|s| - 1] == '=' then RStrip(s[..|s| - 1]) else s
  }

  function Encode(raw: seq<Byte>): string {
    RStrip(Padded(raw))
  }

  /** "=" repeated (-n) mod 4 times. */
  function Pad(n: nat): string {
    seq((4 - n % 4) % 4, i => '=')
  }

  function Decode(raw: string): Decoded {
    if exists i :: 0 <= i < |raw| && raw[i] >= 128 as char then NotAscii
    else Scan(raw + Pad(|raw|), 0, 0, 0)
  }

  /**
   The decoder, a character at a time: `quad` symbols of the current group have been read, `left` holds
   their bits not yet written and `pads` counts the padding seen since the last symbol.
   */
  function Scan(s: string, quad: nat, left: nat, pads: nat): Decoded
    requires Held(quad, left)
  {
    if s == "" then
      if quad == 0 then Bytes([]) else if quad == 1 then DanglingSymbol else BadPadding
    else
      var v := Worth(s[0]);
      if s[0] == '=' then
        if quad < 2 then Scan(s[1..], quad, left, pads)
        else if quad + pads + 1 >= 4 then Bytes([])
        else Scan(s[1..], quad, left, pads + 1)
      else if v < 0 then Scan(s[1..], quad, left, pads)
      else if quad == 0 then Scan(s[1..], 1, v, 0)
      else if quad == 1 then Write(left * 4 + v / 16, Scan(s[1..], 2, v % 16, 0))
      else if quad == 2 then Write(left * 16 + v / 4, Scan(s[1..], 3, v % 4, 0))
      else Write(left * 64 + v, Scan(s[1..], 0, 0, 0))
  }

  predicate Held(quad: nat, left: nat) {
    (quad == 0 && left == 0) || (quad == 1 && left < 64) || (quad == 2 && left < 16) || (quad == 3 && left < 4)
  }

  function Write(b: Byte, rest: Decoded): Decoded {
    if rest.Bytes? then Bytes([b] + rest.bytes) else rest
  }

  /* ---- the stripped padding can be worked out from what is left ---- */

  lemma StripPads(body: string, k: nat)
    requires k <= 2 && (body == "" || body[|body| - 1] != '=')
    ensures RStrip(body + seq(k, i => '=')) == body
  {
    var one, two := body + ['='], body + ['=', '='];
    assert two[..|body| + 1] == one && one[..|body|] == body;
    assert RStrip(one) == RStrip(body) == body;
    assert RStrip(two) == RStrip(one);
    assert seq(0, i => '=') == [] && seq(1, i => '=') == ['='] && seq(2, i => '=') == ['=', '='];
    assert body + [] == body;
  }

  /** What precedes the padding. */
  function Unpadded(b: seq<Byte>): (s: string)
    ensures |s| % 4 != 1 && forall i :: 0 <= i < |s| ==> UrlSafe(s[i])
  {
    if b == [] then ""
    else if |b| == 1 then One(b[0])
    else if |b| == 2 then Two(b[0], b[1])
    else Three(b[0], b[1], b[2]) + Unpadded(b[3..])
  }

  lemma {:induction false} PadsFollow(b: seq<Byte>)
    ensures Padded(b) == Unpadded(b) + Pad(|Unpadded(b)|)
  {
    hide One, Two, Three;
    if |b| > 2 {
      PadsFollow(b[3..]);
      hide Pad;
      AlignedHead(Three(b[0], b[1], b[2]), Unpadded(b[3..]));
    }
  }

  lemma AlignedHead(head: string, tail: string)
    requires |head| == 4
    ensures head + (tail + Pad(|tail|)) == (head + tail) + Pad(|head + tail|)
  {
  }

  lemma EncodeIsUnpadded(b: seq<Byte>)
    ensures Encode(b) == Unpadded(b)
  {
    var u := Unpadded(b);
    assert u == "" || UrlSafe(u[|u| - 1]);
    assert Pad(|u|) == seq(|Pad(|u|)|, i => '=') && |Pad(|u|)| <= 2;
    hide Unpadded, Padded, RStrip, UrlSafe, Pad;
    PadsFollow(b);
    StripPads(u, |Pad(|u|)|);
  }

  /** The stripped text is made of URL-safe symbols only, and padding it by its length restores the padded form. */
  lemma PaddingRecomputed(b: seq<Byte>)
    ensures forall i :: 0 <= i < |Encode(b)| ==> UrlSafe(Encode(b)[i])
    ensures Encode(b) + Pad(|Encode(b)|) == Padded(b)
  {
    hide *;
    EncodeIsUnpadded(b);
    PadsFollow(b);
  }

  /** Four symbols are the digits, to the base of 64, of three bytes read as one number, the first one highest. */
  lemma GroupIsANumber(a: Byte, b: Byte, c: Byte)
    ensures var s := Three(a, b, c);
      262144 * Worth(s[0]) + 4096 * Worth(s[1]) + 64 * Worth(s[2]) + Worth(s[3]) == 65536 * a + 256 * b + c
  {
    hide Symbol, Worth;
    WorthOfSymbol(a / 4);
    WorthOfSymbol(a % 4 * 16 + b / 16);
    WorthOfSymbol(b % 16 * 4 + c / 64);
    WorthOfSymbol(c % 64);
  }

  /** Text is encoded three bytes at a time, and what is left over as if zeros followed. */
  lemma EncodeByGroups(b: seq<Byte>)
    ensures |b| >= 3 ==> Encode(b) == Three(b[0], b[1], b[2]) + Encode(b[3..])
    ensures |b| == 2 ==> Encode(b) == Three(b[0], b[1], 0)[..3]
    ensures |b| == 1 ==> Encode(b) == Three(b[0], 0, 0)[..2]
    ensures b == [] ==> Encode(b) == ""
  {
    EncodeIsUnpadded(b);
    if |b| >= 3 { EncodeIsUnpadded(b[3..]); }
    hide Encode, Symbol;
  }

  /* ---- the round trip ---- */

  lemma ScanSymbol(v: Six, rest: string, quad: nat, left: nat)
    requires Held(quad, left)
    ensures var d := Scan([Symbol(v)] + rest, quad, left, 0);
      if quad == 0 then d == Scan(rest, 1, v, 0)
      else if quad == 1 then d == Write(left * 4 + v / 16, Scan(rest, 2, v % 16, 0))
      else if quad == 2 then d == Write(left * 16 + v / 4, Scan(rest, 3, v % 4, 0))
      else d == Write(left * 64 + v, Scan(rest, 0, 0, 0))
  {
    WorthOfSymbol(v);
    assert ([Symbol(v)] + rest)[1..] == rest;
  }

  lemma ScanPads()
    ensures Scan("==", 2, 0, 0) == Bytes([]) && Scan("=", 3, 0, 0) == Bytes([])
  {
    assert "=="[1..] == "=";
  }

  lemma {:induction false} ScanUndoesPadded(b: seq<Byte>)
    ensures Scan(Padded(b), 0, 0, 0) == Bytes(b)
  {
    if |b| == 1 {
      hide Scan, One;
      ScanOne(b[0]);
      assert b == [b[0]];
    } else if |b| == 2 {
      hide Scan, Two;
      ScanTwo(b[0], b[1]);
      assert b == [b[0], b[1]];
    } else if |b| > 2 {
      hide Scan, Three, Write;
      ScanUndoesPadded(b[3..]);
      ScanThree(b[0], b[1], b[2], Padded(b[3..]));
      WriteThree(b);
    }
  }

  lemma WriteThree(b: seq<Byte>)
    requires |b| > 2
    ensures Write(b[0], Write(b[1], Write(b[2], Bytes(b[3..])))) == Bytes(b)
  {
    assert b == [b[0]] + ([b[1]] + ([b[2]] + b[3..]));
  }

  lemma ScanOne(a: Byte)
    ensures Scan(One(a) + "==", 0, 0, 0) == Bytes([a])
  {
    hide Scan, Symbol;
    var v, w := a / 4, a % 4 * 16;
    ScanPads();
    ScanSymbol(w, "==", 1, v);
    ScanSymbol(v, [Symbol(w)] + "==", 0, 0);
    assert One(a) + "==" == [Symbol(v)] + ([Symbol(w)] + "==");
  }

  lemma ScanTwo(a: Byte, b: Byte)
    ensures Scan(Two(a, b) + "=", 0, 0, 0) == Bytes([a, b])
  {
    hide Scan, Symbol;
    var v, w, x := a / 4, a % 4 * 16 + b / 16, b % 16 * 4;
    ScanPads();
    ScanSymbol(x, "=", 2, b / 16);
    ScanSymbol(w, [Symbol(x)] + "=", 1, v);
    ScanSymbol(v, [Symbol(w)] + ([Symbol(x)] + "="), 0, 0);
    assert Two(a, b) + "=" == [Symbol(v)] + ([Symbol(w)] + ([Symbol(x)] + "="));
  }

  lemma ScanThree(a: Byte, b: Byte, c: Byte, rest: string)
    ensures Scan(Three(a, b, c) + rest, 0, 0, 0) == Write(a, Write(b, Write(c, Scan(rest, 0, 0, 0))))
  {
    hide Scan, Write, Symbol;
    var v, w, x, y := a / 4, a % 4 * 16 + b / 16, b % 16 * 4 + c / 64, c % 64;
    ScanSymbol(y, rest, 3, c / 64);
    ScanSymbol(x, [Symbol(y)] + rest, 2, b / 16);
    ScanSymbol(w, [Symbol(x)] + ([Symbol(y)] + rest), 1, v);
    ScanSymbol(v, [Symbol(w)] + ([Symbol(x)] + ([Symbol(y)] + rest)), 0, 0);
    assert Three(a, b, c) + rest == [Symbol(v)] + ([Symbol(w)] + ([Symbol(x)] + ([Symbol(y)] + rest)));
  }

  /** Decoding undoes encoding for every byte string. */
  lemma DecodeUndoesEncode(b: seq<Byte>)
    ensures Decode(Encode(b)) == Bytes(b)
  {
    PaddingRecomputed(b);
    ScanUndoesPadded(b);
    assert forall i :: 0 <= i < |Encode(b)| ==> Encode(b)[i] < 128 as char;
  }

  lemma EncodeInjective(a: seq<Byte>, b: seq<Byte>)
    requires Encode(a) == Encode(b)
    ensures a == b
  {
    DecodeUndoesEncode(a);
    DecodeUndoesEncode(b);
  }
}
