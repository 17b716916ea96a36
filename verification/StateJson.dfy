/**
 The JSON text of the OAuth state's payload: three members in alphabetical order without spaces, strings in
 ASCII with escapes, as the program writes it; and a reader of that shape. Reading undoes writing, so what
 OAuthState proves for any such pair holds for this one.
 */
module StateJson {
  import opened Common
  import opened Base64Url
  import opened Decimal
  import opened OAuthState

  /* ---- strings ---- */

  function HexDigit(d: nat): (c: char)
    requires d < 16
    ensures '0' <= c <= '9' || 'a' <= c <= 'f'
  {
    if d < 10 then '0' + d as char else 'a' + (d - 10) as char
  }

  /** The value of a hexadecimal digit, or -1; capital digits are read too. */
  function HexWorth(c: char): (v: int)
    ensures -1 <= v < 16
  {
    if '0' <= c <= '9' then (c - '0') as int
    else if 'a' <= c <= 'f' then (c - 'a') as int + 10
    else if 'A' <= c <= 'F' then (c - 'A') as int + 10
    else -1
  }

  lemma HexReadsBack(d: nat)
    requires d < 16
    ensures HexWorth(HexDigit(d)) == d
  {
  }

  function Unicode(n: nat): (s: string)
    requires n < 0x10000
    ensures |s| == 6
  {
    ['\\', 'u', HexDigit(n / 4096), HexDigit(n / 256 % 16), HexDigit(n / 16 % 16), HexDigit(n % 16)]
  }

  /** The 16-bit unit that `s` escapes at its start, or -1. */
  function ReadUnit(s: string): (n: int)
    ensures -1 <= n < 0x10000
  {
    if |s| < 6 || s[0] != '\\' || s[1] != 'u' then -1
    else
      var a, b, c, d := HexWorth(s[2]), HexWorth(s[3]), HexWorth(s[4]), HexWorth(s[5]);
      if a < 0 || b < 0 || c < 0 || d < 0 then -1 else 4096 * a + 256 * b + 16 * c + d
  }

  lemma FourDigits(n: nat)
    requires n < 0x10000
    ensures n == 4096 * (n / 4096) + 256 * (n / 256 % 16) + 16 * (n / 16 % 16) + n % 16
  {
    assert n / 16 == 16 * (n / 256) + n / 16 % 16 && n / 256 == 16 * (n / 4096) + n / 256 % 16;
  }

  lemma UnitReadsBack(n: nat, tail: string)
    requires n < 0x10000
    ensures ReadUnit(Unicode(n) + tail) == n && (Unicode(n) + tail)[6..] == tail
    ensures (Unicode(n) + tail)[0] == '\\' && (Unicode(n) + tail)[1] == 'u'
  {
    var a, b, c, d := n / 4096, n / 256 % 16, n / 16 % 16, n % 16;
    FourDigits(n);
    HexReadsBack(a);
    HexReadsBack(b);
    HexReadsBack(c);
    HexReadsBack(d);
    hide HexDigit, HexWorth;
    var s := ['\\', 'u', HexDigit(a), HexDigit(b), HexDigit(c), HexDigit(d)] + tail;
    assert s[2] == HexDigit(a) && s[3] == HexDigit(b) && s[4] == HexDigit(c) && s[5] == HexDigit(d);
  }

  /** The letter that a two-character escape puts after the backslash, or a space if the character has none. */
  function Letter(c: char): char {
    if c == '\"' || c == '\\' then c
    else if c == '\n' then 'n'
    else if c == '\r' then 'r'
    else if c == '\t' then 't'
    else if c == 8 as char then 'b'
    else if c == 12 as char then 'f'
    else ' '
  }

  /** What such an escape stands for; a solidus may be escaped too. */
  function Unlettered(e: char): Option<char> {
    if e == '\"' || e == '\\' || e == '/' then Some(e)
    else if e == 'n' then Some('\n')
    else if e == 'r' then Some('\r')
    else if e == 't' then Some('\t')
    else if e == 'b' then Some(8 as char)
    else if e == 'f' then Some(12 as char)
    else None
  }

  function EscapeChar(c: char): string {
    var n := c as int;
    if Letter(c) != ' ' then ['\\', Letter(c)]
    else if ' ' <= c <= '~' then [c]
    else if n < 0x10000 then Unicode(n)
    else Unicode(0xD800 + (n - 0x10000) / 1024) + Unicode(0xDC00 + (n - 0x10000) % 1024)
  }

  function Escape(s: string): string {
    if s == "" then "" else EscapeChar(s[0]) + Escape(s[1..])
  }

  /** The character that an escape of one or two units stands for and what follows it; lone surrogates are none. */
  function ReadUnicode(s: string): (r: Option<(char, string)>)
    ensures r.Some? ==> |r.value.1| < |s|
  {
    var n := ReadUnit(s);
    if n < 0 then None
    else if n < 0xD800 || 0xE000 <= n then Some((n as char, s[6..]))
    else
      var m := ReadUnit(s[6..]);
      if n < 0xDC00 && 0xDC00 <= m < 0xE000
      then Some(((0x10000 + 1024 * (n - 0xD800) + (m - 0xDC00)) as char, s[12..]))
      else None
  }

  /** The first character of a string's text, if it is not at its end. */
  function ReadChar(s: string): (r: Option<(char, string)>)
    ensures r.Some? ==> |r.value.1| < |s|
  {
    if s == "" || s[0] == '\"' || s[0] < ' ' then None
    else if s[0] != '\\' then Some((s[0], s[1..]))
    else if |s| > 1 && Unlettered(s[1]).Some? then Some((Unlettered(s[1]).value, s[2..]))
    else ReadUnicode(s)
  }

  /** The text up to the closing quote, and what follows that. */
  function ReadString(s: string): Option<(string, string)>
    decreases |s|
  {
    if s != "" && s[0] == '\"' then Some(("", s[1..]))
    else match ReadChar(s)
      case None => None
      case Some(first) => match ReadString(first.1)
        case None => None
        case Some(more) => Some(([first.0] + more.0, more.1))
  }

  lemma UnitIsNoShortEscape(s: string)
    requires |s| > 1 && s[0] == '\\' && s[1] == 'u'
    ensures ReadChar(s) == ReadUnicode(s)
  {
    hide ReadUnicode;
  }

  lemma SingleReadsBack(c: char, tail: string)
    requires c as int < 0x10000
    ensures ReadUnicode(Unicode(c as int) + tail) == Some((c, tail))
  {
    hide ReadUnit, Unicode;
    UnitReadsBack(c as int, tail);
  }

  lemma PairReadsBack(n: nat, tail: string)
    requires 0x10000 <= n < 0x110000
    ensures var hi, lo := 0xD800 + (n - 0x10000) / 1024, 0xDC00 + (n - 0x10000) % 1024;
      ReadUnicode(Unicode(hi) + (Unicode(lo) + tail)) == Some((n as char, tail))
  {
    var hi, lo := 0xD800 + (n - 0x10000) / 1024, 0xDC00 + (n - 0x10000) % 1024;
    hide ReadUnit, Unicode;
    assert n == 0x10000 + 1024 * (hi - 0xD800) + (lo - 0xDC00) && hi < 0xDC00 && lo < 0xE000;
    PairOfUnits(hi, lo, tail);
  }

  lemma PairOfUnits(hi: nat, lo: nat, tail: string)
    requires 0xD800 <= hi < 0xDC00 && 0xDC00 <= lo < 0xE000
    ensures ReadUnicode(Unicode(hi) + (Unicode(lo) + tail))
         == Some(((0x10000 + 1024 * (hi - 0xD800) + (lo - 0xDC00)) as char, tail))
  {
    hide ReadUnit, Unicode;
    UnitReadsBack(hi, Unicode(lo) + tail);
    UnitReadsBack(lo, tail);
    var s := Unicode(hi) + (Unicode(lo) + tail);
    assert s[12..] == s[6..][6..];
  }

  lemma LetterReadsBack(c: char, tail: string)
    requires Letter(c) != ' '
    ensures ReadChar(['\\', Letter(c)] + tail) == Some((c, tail))
  {
    hide ReadUnicode;
    assert Unlettered(Letter(c)) == Some(c);
    assert (['\\', Letter(c)] + tail)[2..] == tail;
  }

  lemma PlainReadsBack(c: char, tail: string)
    requires Letter(c) == ' ' && ' ' <= c <= '~'
    ensures ReadChar([c] + tail) == Some((c, tail)) && c != '\"'
  {
    hide ReadUnicode;
    assert ([c] + tail)[1..] == tail;
  }

  lemma CharReadsBack(c: char, tail: string)
    ensures ReadChar(EscapeChar(c) + tail) == Some((c, tail)) && (EscapeChar(c) + tail)[0] != '\"'
  {
    var n := c as int;
    hide ReadUnit, Unicode, Letter, Unlettered, ReadChar, ReadUnicode;
    if Letter(c) != ' ' {
      LetterReadsBack(c, tail);
    } else if ' ' <= c <= '~' {
      PlainReadsBack(c, tail);
    } else if n < 0x10000 {
      UnitReadsBack(n, tail);
      SingleReadsBack(c, tail);
      UnitIsNoShortEscape(Unicode(n) + tail);
    } else {
      var hi, lo := 0xD800 + (n - 0x10000) / 1024, 0xDC00 + (n - 0x10000) % 1024;
      PairReadsBack(n, tail);
      UnitReadsBack(hi, Unicode(lo) + tail);
      assert EscapeChar(c) + tail == Unicode(hi) + (Unicode(lo) + tail);
      UnitIsNoShortEscape(Unicode(hi) + (Unicode(lo) + tail));
    }
  }

  lemma {:induction false} StringReadsBack(s: string, rest: string)
    ensures ReadString(Escape(s) + "\"" + rest) == Some((s, rest))
  {
    if s == "" {
      assert Escape(s) + "\"" + rest == "\"" + rest;
    } else {
      var tail := Escape(s[1..]) + "\"" + rest;
      StringReadsBack(s[1..], rest);
      CharReadsBack(s[0], tail);
      assert Escape(s) + "\"" + rest == EscapeChar(s[0]) + tail;
      assert [s[0]] + s[1..] == s;
    }
  }

  lemma {:induction false} EscapeIsAscii(s: string)
    ensures Ascii(Escape(s))
  {
    if s != "" {
      EscapeIsAscii(s[1..]);
    }
  }

  /* ---- numbers ---- */

  function IntText(n: int): string {
    if n < 0 then "-" + Digits(-n) else Digits(n)
  }

  /** A JSON integer's digits: at least one, and no leading zero. */
  predicate Numeral(s: string) {
    s != "" && (forall i :: 0 <= i < |s| ==> '0' <= s[i] <= '9') && (|s| > 1 ==> s[0] != '0')
  }

  function ReadInt(s: string): Option<int> {
    if Numeral(s) then Some(Value(s))
    else if s != "" && s[0] == '-' && Numeral(s[1..]) then Some(0 - Value(s[1..]))
    else None
  }

  lemma {:induction false} DigitsAreNumeral(n: nat)
    ensures Numeral(Digits(n)) && (n > 0 ==> Digits(n)[0] != '0')
  {
    if n >= 10 {
      DigitsAreNumeral(n / 10);
      assert Digits(n)[0] == Digits(n / 10)[0];
    }
  }

  lemma IntReadsBack(n: int)
    ensures ReadInt(IntText(n)) == Some(n) && Ascii(IntText(n))
  {
    var m: nat := if n < 0 then -n else n;
    DigitsAreNumeral(m);
    DigitsReadBack(m);
    if n < 0 {
      assert IntText(n)[1..] == Digits(m) && IntText(n)[0] == '-';
    }
  }

  /* ---- the payload ---- */

  const OPEN := "{\"n\":\""
  const NEXT := ",\"next\":\""
  const TIME := ",\"t\":"

  function PayloadText(p: Payload): string {
    OPEN + (Escape(p.nonce) + "\"" + (NEXT + (Escape(p.next) + "\"" + (TIME + (IntText(p.issuedAt) + "}")))))
  }

  /** How other characters are written: seven as a letter after the backslash, the rest by code in hexadecimal. */
  lemma EscapesByCode(c: char)
    ensures var n, e := c as int, EscapeChar(c);
      && (n == 34 || n == 92 ==> e == ['\\', c])
      && (n == 8 ==> e == "\\b") && (n == 9 ==> e == "\\t") && (n == 10 ==> e == "\\n")
      && (n == 12 ==> e == "\\f") && (n == 13 ==> e == "\\r")
      && (n < 8 || n == 11 || 13 < n < 32 || 126 < n < 0x10000 ==> e == Unicode(n))
      && (n >= 0x10000 ==> e == Unicode(0xD800 + (n - 0x10000) / 1024) + Unicode(0xDC00 + (n - 0x10000) % 1024))
  {
    hide Unicode;
  }

  /** Hexadecimal digits are small. */
  lemma UnicodeByCode(n: nat)
    requires n < 0x10000
    ensures var s := Unicode(n);
      && s[0] == '\\' && s[1] == 'u'
      && forall k :: 2 <= k < 6 ==> (48 <= s[k] as int <= 57 || 97 <= s[k] as int <= 102)
    ensures var d := (c: char) => if c as int <= 57 then c as int - 48 else c as int - 87;
      var s := Unicode(n); n == 4096 * d(s[2]) + 256 * d(s[3]) + 16 * d(s[4]) + d(s[5])
  {
    FourDigits(n);
  }

  /** A character that JSON text has as it is. */
  predicate Plain(c: char) {
    ' ' <= c <= '~' && c != '\"' && c != '\\'
  }

  lemma {:induction false} PlainStays(s: string)
    requires forall i :: 0 <= i < |s| ==> Plain(s[i])
    ensures Escape(s) == s
  {
    if s != "" { PlainStays(s[1..]); }
  }

  /** What is signed, for a nonce and a path of plain characters: the JSON object with its members in this order. */
  lemma PlainPayload(p: Payload)
    requires p.issuedAt >= 0
    requires forall i :: 0 <= i < |p.nonce| ==> Plain(p.nonce[i])
    requires forall i :: 0 <= i < |p.next| ==> Plain(p.next[i])
    ensures PayloadText(p) ==
      "{\"n\":\"" + (p.nonce + ("\"" + (",\"next\":\"" + (p.next + ("\"" + (",\"t\":" + (Digits(p.issuedAt) + "}")))))))
  {
    PlainStays(p.nonce);
    PlainStays(p.next);
    hide Escape, Plain, Digits;
    var t := TIME + (IntText(p.issuedAt) + "}");
    Requoted(p.next, t);
    Requoted(p.nonce, NEXT + (p.next + ("\"" + t)));
  }

  lemma Requoted(s: string, t: string)
    ensures s + "\"" + t == s + ("\"" + t)
  {
  }

  /** What follows `w` at the head of `s`. */
  function After(s: string, w: string): Option<string> {
    if w <= s then Some(s[|w|..]) else None
  }

  /** A labelled string and what follows it. */
  function ReadMember(s: string, name: string): Option<(string, string)> {
    match After(s, name) case None => None case Some(rest) => ReadString(rest)
  }

  function ReadPayload(s: string): Option<Payload> {
    match ReadMember(s, OPEN)
    case None => None
    case Some(n) => match ReadMember(n.1, NEXT)
      case None => None
      case Some(next) => match After(next.1, TIME)
        case None => None
        case Some(rest) =>
          if rest == "" || rest[|rest| - 1] != '}' then None
          else match ReadInt(rest[..|rest| - 1])
            case None => None
            case Some(t) => Some(Payload(n.0, t, next.0))
  }

  lemma MemberReadsBack(name: string, s: string, rest: string)
    ensures ReadMember(name + (Escape(s) + "\"" + rest), name) == Some((s, rest))
  {
    var text := Escape(s) + "\"" + rest;
    assert (name + text)[|name|..] == text;
    hide ReadString, Escape;
    StringReadsBack(s, rest);
  }

  lemma PayloadReadsBack(p: Payload)
    ensures ReadPayload(PayloadText(p)) == Some(p)
  {
    var number := IntText(p.issuedAt) + "}";
    var time := TIME + number;
    assert time[|TIME|..] == number && number[..|number| - 1] == IntText(p.issuedAt);
    IntReadsBack(p.issuedAt);
    assert After(time, TIME) == Some(number) && number[|number| - 1] == '}';
    hide ReadMember, IntText, ReadInt, Escape, After;
    MemberReadsBack(NEXT, p.next, time);
    MemberReadsBack(OPEN, p.nonce, NEXT + (Escape(p.next) + "\"" + time));
  }

  lemma AsciiAppend(a: string, b: string)
    requires Ascii(a) && Ascii(b)
    ensures Ascii(a + b)
  {
  }

  lemma NamesAreAscii()
    ensures Ascii(OPEN) && Ascii("\"") && Ascii(NEXT) && Ascii(TIME) && Ascii("}")
  {
  }

  lemma PayloadIsAscii(p: Payload)
    ensures Ascii(PayloadText(p))
  {
    NamesAreAscii();
    EscapeIsAscii(p.nonce);
    EscapeIsAscii(p.next);
    IntReadsBack(p.issuedAt);
    hide Ascii, Escape, IntText;
    var number := IntText(p.issuedAt) + "}";
    AsciiAppend(IntText(p.issuedAt), "}");
    AsciiAppend(TIME, number);
    AsciiAppend(Escape(p.next), "\"");
    AsciiAppend(Escape(p.next) + "\"", TIME + number);
    var rest := Escape(p.next) + "\"" + (TIME + number);
    AsciiAppend(NEXT, rest);
    AsciiAppend(Escape(p.nonce), "\"");
    AsciiAppend(Escape(p.nonce) + "\"", NEXT + rest);
    AsciiAppend(OPEN, Escape(p.nonce) + "\"" + (NEXT + rest));
  }

  /* ---- bytes ---- */

  /** ASCII characters, of which UTF-8 makes a byte each. */
  function ToBytes(s: string): (b: seq<Byte>)
    requires Ascii(s)
  {
    seq(|s|, i requires 0 <= i < |s| => s[i] as int)
  }

  function FromBytes(b: seq<Byte>): string {
    seq(|b|, i requires 0 <= i < |b| => b[i] as char)
  }

  function WritePayload(p: Payload): seq<Byte> {
    PayloadIsAscii(p);
    ToBytes(PayloadText(p))
  }

  function ReadBytes(b: seq<Byte>): Option<Payload> {
    if exists i :: 0 <= i < |b| && b[i] >= 128 then None else ReadPayload(FromBytes(b))
  }

  /** Reading a payload's bytes gives the payload back, for every nonce, path and time. */
  lemma BytesReadBack(p: Payload)
    ensures ReadBytes(WritePayload(p)) == Some(p)
  {
    PayloadIsAscii(p);
    var text := PayloadText(p);
    assert FromBytes(ToBytes(text)) == text;
    hide PayloadText, ReadPayload;
    PayloadReadsBack(p);
  }

  /* ---- the state's properties with this codec ---- */

  /** Under any keys, session and time a minted state is judged on its payload, once the keys agree on it. */
  lemma StateIsJudgedOnItsPayload(signer: Mac, checker: Mac, p: Payload, held: string, now: int)
    ensures Judge(checker, ReadBytes, held, StateText(signer, WritePayload(p)), now)
         == if checker(WritePayload(p)) == signer(WritePayload(p)) then JudgePayload(held, p, now) else InvalidState
  {
    BytesReadBack(p);
    MintedIsJudgedOnItsPayload(signer, checker, WritePayload, ReadBytes, p, held, now);
  }

  /** The round trip of a minted state, with nothing assumed of the codec or the signature function. */
  lemma StateRoundTrip(mac: Mac, p: Payload, held: string, now: int)
    requires p.nonce != "" && p.issuedAt != 0 && Allowlisted(p.next)
    ensures var v := Judge(mac, ReadBytes, held, StateText(mac, WritePayload(p)), now);
      && (v.Accepted? <==> held == p.nonce && now - p.issuedAt <= LIFETIME)
      && (v.Accepted? ==> v == Accepted(p.next, p.issuedAt))
  {
    BytesReadBack(p);
    MintedRoundTrip(mac, WritePayload, ReadBytes, p, held, now);
  }

  /** A text with a minted signature is refused or judged as the minted state, unless the signature collides. */
  lemma StateIsBound(mac: Mac, p: Payload, state: string, held: string, now: int)
    requires SplitOnDot(state).Some? && SplitOnDot(state).value.1 == Sign(mac, WritePayload(p))
    ensures var v := Judge(mac, ReadBytes, held, state, now);
      v.Accepted? && v != Judge(mac, ReadBytes, held, StateText(mac, WritePayload(p)), now) ==>
        exists bytes :: bytes != WritePayload(p) && mac(bytes) == mac(WritePayload(p))
  {
    BytesReadBack(p);
    SignatureBindsPayload(mac, WritePayload, ReadBytes, p, state, held, now);
  }
}
