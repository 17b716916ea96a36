/**
 The signed state that the Google sign-in sends through the browser: a JSON payload and its signature,
 both in base64url, joined by a dot, and bound to one browser session by a nonce. The signature is an
 arbitrary function of the payload bytes; the JSON codec is a pair of functions.
 */
module OAuthState {
  import opened Common
  import opened Base64Url

  /** The payload's three members; an absent member is "" or 0, which the program treats alike. */
  datatype Payload = Payload(nonce: string, issuedAt: int, next: string)

  datatype Verdict =
    | Accepted(next: string, issuedAt: int)
    | InvalidState
    | UndecodablePayload
    | UncomparableSignature
    | StateExpired
    | InvalidRedirect

  type Mac = seq<Byte> -> seq<Byte>
  type Dumps = Payload -> seq<Byte>
  type Loads = seq<Byte> -> Option<Payload>

  const DEFAULT_NEXT := "/dashboard"
  const LIFETIME := 600

  predicate Allowlisted(next: string) {
    next in {"/dashboard"}
  }

  /** The text before and after the first dot. */
  function SplitOnDot(s: string): Option<(string, string)> {
    if s == "" then None
    else if s[0] == '.' then Some(("", s[1..]))
    else match SplitOnDot(s[1..])
      case None => None
      case Some(parts) => Some(([s[0]] + parts.0, parts.1))
  }

  predicate Ascii(s: string) {
    forall i :: 0 <= i < |s| ==> s[i] < 128 as char
  }

  function Sign(mac: Mac, bytes: seq<Byte>): string {
    Encode(mac(bytes))
  }

  function StateText(mac: Mac, bytes: seq<Byte>): string {
    Encode(bytes) + "." + Sign(mac, bytes)
  }

  /** What validation answers at time `now` in a session holding `held`. */
  function Judge(mac: Mac, loads: Loads, held: string, state: string, now: int): Verdict {
    match SplitOnDot(state)
    case None => InvalidState
    case Some(parts) =>
      var decoded := Decode(parts.0);
      if !decoded.Bytes? then UndecodablePayload
      else if !Ascii(parts.1) then UncomparableSignature
      else if Sign(mac, decoded.bytes) != parts.1 then InvalidState
      else match loads(decoded.bytes)
        case None => InvalidState
        case Some(p) => JudgePayload(held, p, now)
  }

  function JudgePayload(held: string, p: Payload, now: int): Verdict {
    var next := if p.next == "" then DEFAULT_NEXT else p.next;
    if p.nonce == "" || p.issuedAt == 0 then InvalidState
    else if now - p.issuedAt > LIFETIME then StateExpired
    else if held == "" || held != p.nonce then InvalidState
    else if !Allowlisted(next) then InvalidRedirect
    else Accepted(next, p.issuedAt)
  }

  /** The browser session's part of the exchange; "" and 0 stand for absent keys. */
  class Session {
    var oauthStateNonce: string
    var oauthStateIssuedAt: int

    constructor ()
      ensures oauthStateNonce == "" && oauthStateIssuedAt == 0
    {
      oauthStateNonce, oauthStateIssuedAt := "", 0;
    }

    method Mint(mac: Mac, dumps: Dumps, nonce: string, now: int, nextPath: string) returns (state: string)
      modifies this
      ensures state == StateText(mac, dumps(Payload(nonce, now, nextPath)))
      ensures oauthStateNonce == nonce && oauthStateIssuedAt == now
    {
      var payload := dumps(Payload(nonce, now, nextPath));
      var sig := Sign(mac, payload);
      oauthStateNonce := nonce;
      oauthStateIssuedAt := now;
      state := Encode(payload) + "." + sig;
    }

    method Validate(mac: Mac, loads: Loads, state: string, now: int) returns (v: Verdict)
      ensures v == Judge(mac, loads, oauthStateNonce, state, now)
    {
      var parts := SplitOnDot(state);
      if parts.None? {
        return InvalidState;
      }
      var payloadB64, sigB64 := parts.value.0, parts.value.1;
      var decoded := Decode(payloadB64);
      if !decoded.Bytes? {
        return UndecodablePayload;
      }
      var expected := Sign(mac, decoded.bytes);
      if !Ascii(sigB64) {
        return UncomparableSignature;
      }
      if expected != sigB64 {
        return InvalidState;
      }
      var payload := loads(decoded.bytes);
      if payload.None? {
        return InvalidState;
      }
      var nonce, issuedAt, next := payload.value.nonce, payload.value.issuedAt, payload.value.next;
      if next == "" {
        next := DEFAULT_NEXT;
      }
      if nonce == "" || issuedAt == 0 {
        return InvalidState;
      }
      if now - issuedAt > LIFETIME {
        return StateExpired;
      }
      if oauthStateNonce == "" || oauthStateNonce != nonce {
        return InvalidState;
      }
      if !Allowlisted(next) {
        return InvalidRedirect;
      }
      v := Accepted(next, issuedAt);
    }
  }

  lemma {:induction false} SplitAtFirstDot(a: string, b: string)
    requires '.' !in a
    ensures SplitOnDot(a + "." + b) == Some((a, b))
  {
    if a == "" {
      assert (a + "." + b)[1..] == b;
    } else {
      SplitAtFirstDot(a[1..], b);
      assert (a + "." + b)[1..] == a[1..] + "." + b;
      assert [a[0]] + a[1..] == a;
    }
  }

  /** A minted state splits back into its two parts and is made of characters that URLs leave alone. */
  lemma StateTextSplits(mac: Mac, bytes: seq<Byte>)
    ensures SplitOnDot(StateText(mac, bytes)) == Some((Encode(bytes), Sign(mac, bytes)))
    ensures forall c :: c in StateText(mac, bytes) ==> UrlSafe(c) || c == '.'
  {
    PaddingRecomputed(bytes);
    PaddingRecomputed(mac(bytes));
    SplitAtFirstDot(Encode(bytes), Sign(mac, bytes));
  }

  lemma {:induction false} SplitRejoins(s: string)
    requires SplitOnDot(s).Some?
    ensures var parts := SplitOnDot(s).value; '.' !in parts.0 && s == parts.0 + "." + parts.1
  {
    if s[0] != '.' {
      SplitRejoins(s[1..]);
      assert s == [s[0]] + s[1..];
    }
  }

  /** The text is the two base64url forms of these bytes and of their signature, the first one read leniently. */
  ghost predicate Carries(mac: Mac, state: string, bytes: seq<Byte>) {
    exists head :: '.' !in head && state == head + "." + Encode(mac(bytes)) && Decode(head) == Bytes(bytes)
  }

  /** What makes a payload acceptable: the session's nonce, a time at most 600 seconds back, a path that is allowed. */
  predicate Acceptable(p: Payload, held: string, now: int) {
    && held != "" && p.nonce == held
    && p.issuedAt != 0 && now - p.issuedAt <= 600
    && (p.next == "" || p.next == "/dashboard")
  }

  /**
   A state is accepted exactly when it carries bytes with their right signature whose payload is acceptable, and then
   leads to the dashboard.
   */
  lemma AcceptedIff(mac: Mac, loads: Loads, held: string, state: string, now: int)
    ensures var v := Judge(mac, loads, held, state, now);
      v.Accepted? <==>
        exists bytes :: Carries(mac, state, bytes) && loads(bytes).Some? && Acceptable(loads(bytes).value, held, now)
    ensures forall bytes ::
      Carries(mac, state, bytes) && loads(bytes).Some? && Acceptable(loads(bytes).value, held, now) ==>
        Judge(mac, loads, held, state, now) == Accepted("/dashboard", loads(bytes).value.issuedAt)
  {
    var v := Judge(mac, loads, held, state, now);
    if v.Accepted? {
      SplitRejoins(state);
      var bytes := Decode(SplitOnDot(state).value.0).bytes;
      assert Carries(mac, state, bytes);
    }
    forall bytes | Carries(mac, state, bytes) && loads(bytes).Some? && Acceptable(loads(bytes).value, held, now)
      ensures v == Accepted("/dashboard", loads(bytes).value.issuedAt)
    {
      var head :| '.' !in head && state == head + "." + Encode(mac(bytes)) && Decode(head) == Bytes(bytes);
      SplitAtFirstDot(head, Encode(mac(bytes)));
      PaddingRecomputed(mac(bytes));
      SafeIsAscii(Encode(mac(bytes)));
    }
  }

  lemma SafeIsAscii(s: string)
    requires forall i :: 0 <= i < |s| ==> UrlSafe(s[i])
    ensures Ascii(s)
  {
  }

  /**
   Whatever the key it is checked with, the session and the time, a minted state is judged on its payload
   alone once the signatures agree, and refused when they do not.
   */
  lemma MintedIsJudgedOnItsPayload(signer: Mac, checker: Mac, dumps: Dumps, loads: Loads, p: Payload,
                                   held: string, now: int)
    requires loads(dumps(p)) == Some(p)
    ensures Judge(checker, loads, held, StateText(signer, dumps(p)), now)
         == if checker(dumps(p)) == signer(dumps(p)) then JudgePayload(held, p, now) else InvalidState
  {
    var bytes := dumps(p);
    StateTextSplits(signer, bytes);
    DecodeUndoesEncode(bytes);
    PaddingRecomputed(signer(bytes));
    if checker(bytes) != signer(bytes) && Sign(checker, bytes) == Sign(signer, bytes) {
      EncodeInjective(checker(bytes), signer(bytes));
    }
  }

  /**
   The round trip: in the session that minted it and under the same key, a state for an allowlisted path is
   accepted exactly until 600 seconds have passed, and then yields the minted path and time.
   */
  lemma MintedRoundTrip(mac: Mac, dumps: Dumps, loads: Loads, p: Payload, held: string, now: int)
    requires loads(dumps(p)) == Some(p)
    requires p.nonce != "" && p.issuedAt != 0 && Allowlisted(p.next)
    ensures var v := Judge(mac, loads, held, StateText(mac, dumps(p)), now);
      && (v.Accepted? <==> held == p.nonce && now - p.issuedAt <= 600)
      && (v.Accepted? ==> v == Accepted(p.next, p.issuedAt))
  {
    MintedIsJudgedOnItsPayload(mac, mac, dumps, loads, p, held, now);
  }

  /**
   A minted signature vouches for one payload: any text carrying it is refused or judged as the minted state
   itself, unless the signature function collides.
   */
  lemma SignatureBindsPayload(mac: Mac, dumps: Dumps, loads: Loads, p: Payload, state: string, held: string, now: int)
    requires loads(dumps(p)) == Some(p)
    requires SplitOnDot(state).Some? && SplitOnDot(state).value.1 == Sign(mac, dumps(p))
    ensures var v := Judge(mac, loads, held, state, now);
      v.Accepted? && v != Judge(mac, loads, held, StateText(mac, dumps(p)), now) ==>
        exists bytes :: bytes != dumps(p) && mac(bytes) == mac(dumps(p))
  {
    if Judge(mac, loads, held, state, now).Accepted? {
      var bytes := Decode(SplitOnDot(state).value.0).bytes;
      EncodeInjective(mac(bytes), mac(dumps(p)));
      MintedIsJudgedOnItsPayload(mac, mac, dumps, loads, p, held, now);
    }
  }
}
