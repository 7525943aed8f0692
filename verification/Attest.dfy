/**
 * The attestation exchange (services/proxy/src/attest.ts, services/proxy/src/index.ts)
 * over the key-value store. Each handler is one atomic step; certificate chains and
 * signatures are arbitrary predicates, and a MAC verifies only what this server minted.
 */
module Attestation {
  import opened Outcomes

  type Install = string

  type Challenge = string

  type KeyId = string

  datatype AttestedKey = AttestedKey(spki: string, curve: string, counter: nat, installId: Install)

  datatype Token = Token(i: Install, k: KeyId, e: nat)

  const TOKEN_TTL_SECONDS: nat := 3600

  /** `Refused` is any refusal of the verifier itself, under its own code. */
  datatype AttestError =
    | MissingField | BadKeyId | BadChallenge | UnknownKey | KeyInstallMismatch
    | AssertionInvalid | AppIdMismatch | CounterReplay | Refused(code: string)

  datatype TokenFailure = BadSignature | Expired | WrongInstall | Malformed | NoSuchKey | OtherInstallsKey

  /** A decoded assertion: its signature and the authenticator data signed. */
  datatype Assertion = Assertion(signature: string, authData: string)

  datatype AuthData = AuthData(forThisApp: bool, signCount: nat)

  /**
   * What decoding and the cryptography say of arbitrary input. An attestation yields a
   * public key and its curve, or one of the verifier's refusals.
   */
  datatype Crypto = Crypto(
    attests: (string, KeyId, Challenge) -> Result<(string, string), AttestError>,
    opens: string -> Result<Assertion, AttestError>,
    signs: (string, string, Assertion, Challenge) -> bool,
    parses: string -> Result<AuthData, AttestError>)

  // ---------------------------------------------------------------- key ids

  predicate IsKeyChar(c: char) {
    'A' <= c <= 'Z' || 'a' <= c <= 'z' || '0' <= c <= '9' || c == '+' || c == '/' || c == '_' || c == '-'
  }

  /** 43 or 44 base64 characters, then at most two '='. */
  predicate IsPlausibleKeyId(k: KeyId) {
    exists n | 43 <= n <= 44 :: KeyShape(k, n)
  }

  predicate KeyShape(k: KeyId, n: nat) {
    && n <= |k| <= n + 2
    && (forall i :: 0 <= i < n ==> IsKeyChar(k[i])) && (forall i :: n <= i < |k| ==> k[i] == '=')
  }

  /** 43 key characters, perhaps one more, perhaps one or two '='. */
  lemma PlausibleKeyIdIff(k: KeyId)
    ensures IsPlausibleKeyId(k)
            <==> && 43 <= |k| && (forall i :: 0 <= i < 43 ==> IsKeyChar(k[i]))
                 && (var tail := if |k| > 43 && IsKeyChar(k[43]) then k[44..] else k[43..];
                     tail == "" || tail == "=" || tail == "==")
  {
    if IsPlausibleKeyId(k) {
      var n :| 43 <= n <= 44 && KeyShape(k, n);
    }
    if 43 <= |k| && (forall i :: 0 <= i < 43 ==> IsKeyChar(k[i])) {
      var n := if |k| > 43 && IsKeyChar(k[43]) then 44 else 43;
      assert forall i :: n <= i < |k| ==> k[i] == k[n..][i - n];
      if k[n..] == "" || k[n..] == "=" || k[n..] == "==" {
        assert KeyShape(k, n);
      }
    }
  }

  // ---------------------------------------------------------------- the store

  datatype Store = Store(challenges: map<Challenge, Install>, keys: map<KeyId, AttestedKey>) {

    function Claimed(c: Challenge): Store {
      this.(challenges := challenges - {c})
    }

    predicate Owns(c: Challenge, install: Install) {
      c in challenges && challenges[c] == install
    }
  }

  /** `verifyAssertion`: the new counter, when the signature, the app and the counter check out, in that order. */
  function VerifyAssertion(crypto: Crypto, assertion: string, c: Challenge, key: AttestedKey): Result<nat, AttestError> {
    match crypto.opens(assertion)
    case Err(e) => Err(e)
    case Ok(decoded) =>
      if !crypto.signs(key.spki, key.curve, decoded, c) then Err(AssertionInvalid)
      else match crypto.parses(decoded.authData)
        case Err(e) => Err(e)
        case Ok(data) =>
          if !data.forThisApp then Err(AppIdMismatch)
          else if data.signCount <= key.counter then Err(CounterReplay)
          else Ok(data.signCount)
  }

  /** An absent field and an empty one are refused alike. */
  predicate Missing(field: string) {
    field == ""
  }

  /** Refusals before the challenge is touched. */
  function Inadmissible(k: KeyId, c: Challenge): Option<AttestError> {
    if Missing(k) || Missing(c) then Some(MissingField)
    else if !IsPlausibleKeyId(k) then Some(BadKeyId)
    else None
  }

  /** Enrolment: the challenge is spent before the attestation is looked at. */
  function AttestStep(crypto: Crypto, s: Store, install: Install, k: KeyId, c: Challenge, attestation: string)
    : (Store, Result<(), AttestError>)
  {
    if Inadmissible(k, c).Some? then (s, Err(Inadmissible(k, c).value))
    else if !s.Owns(c, install) then (s, Err(BadChallenge))
    else
      var s1 := s.Claimed(c);
      if Missing(attestation) then (s1, Err(MissingField))
      else match crypto.attests(attestation, k, c)
        case Err(e) => (s1, Err(e))
        case Ok((spki, curve)) => (s1.(keys := s1.keys[k := AttestedKey(spki, curve, 0, install)]), Ok(()))
  }

  /** Assertion: on success the counter is stored and a token minted. */
  function AssertStep(crypto: Crypto, s: Store, install: Install, k: KeyId, c: Challenge, assertion: string, now: nat)
    : (Store, Result<Token, AttestError>)
  {
    if Inadmissible(k, c).Some? then (s, Err(Inadmissible(k, c).value))
    else if !s.Owns(c, install) then (s, Err(BadChallenge))
    else
      var s1 := s.Claimed(c);
      if k !in s1.keys then (s1, Err(UnknownKey))
      else if s1.keys[k].installId != install then (s1, Err(KeyInstallMismatch))
      else if Missing(assertion) then (s1, Err(MissingField))
      else match VerifyAssertion(crypto, assertion, c, s1.keys[k])
        case Err(e) => (s1, Err(e))
        case Ok(counter) =>
          (s1.(keys := s1.keys[k := s1.keys[k].(counter := counter)]), Ok(Token(install, k, now + TOKEN_TTL_SECONDS)))
  }

  /** `verifyToken`: `genuine` is the MAC check. */
  function TokenVerdict(s: Store, token: Token, genuine: bool, install: Install, now: nat): Result<KeyId, TokenFailure> {
    if !genuine then Err(BadSignature)
    else if token.e <= now then Err(Expired)
    else if token.i != install then Err(WrongInstall)
    else if !IsPlausibleKeyId(token.k) then Err(Malformed)
    else if token.k !in s.keys then Err(NoSuchKey)
    else if s.keys[token.k].installId != install then Err(OtherInstallsKey)
    else Ok(token.k)
  }

  class Proxy {
    const crypto: Crypto
    var challenges: map<Challenge, Install>
    var keys: map<KeyId, AttestedKey>

    function Abs(): Store
      reads this
    {
      Store(challenges, keys)
    }

    constructor (crypto: Crypto)
      ensures this.crypto == crypto && Abs() == Store(map[], map[])
    {
      this.crypto := crypto;
      challenges, keys := map[], map[];
    }

    method IssueChallenge(install: Install, random: Challenge)
      modifies this
      ensures Abs() == old(Abs()).(challenges := old(challenges)[random := install])
    {
      challenges := challenges[random := install];
    }

    method ClaimChallenge(c: Challenge, install: Install) returns (ok: bool)
      modifies this`challenges
      ensures ok <==> old(Abs()).Owns(c, install)
      ensures Abs() == if ok then old(Abs()).Claimed(c) else old(Abs())
    {
      if c !in challenges || challenges[c] != install {
        return false;
      }
      challenges := challenges - {c};
      ok := true;
    }

    method HandleAttest(install: Install, k: KeyId, c: Challenge, attestation: string) returns (r: Result<(), AttestError>)
      modifies this
      ensures (Abs(), r) == AttestStep(crypto, old(Abs()), install, k, c, attestation)
    {
      if Missing(k) || Missing(c) {
        return Err(MissingField);
      }
      if !IsPlausibleKeyId(k) {
        return Err(BadKeyId);
      }
      var claimed := ClaimChallenge(c, install);
      if !claimed {
        return Err(BadChallenge);
      }
      if Missing(attestation) {
        return Err(MissingField);
      }
      var verified := crypto.attests(attestation, k, c);
      if verified.Err? {
        return Err(verified.error);
      }
      keys := keys[k := AttestedKey(verified.value.0, verified.value.1, 0, install)];
      r := Ok(());
    }

    method HandleAssert(install: Install, k: KeyId, c: Challenge, assertion: string, now: nat) returns (r: Result<Token, AttestError>)
      modifies this
      ensures (Abs(), r) == AssertStep(crypto, old(Abs()), install, k, c, assertion, now)
    {
      if Missing(k) || Missing(c) {
        return Err(MissingField);
      }
      if !IsPlausibleKeyId(k) {
        return Err(BadKeyId);
      }
      var claimed := ClaimChallenge(c, install);
      if !claimed {
        return Err(BadChallenge);
      }
      if k !in keys {
        return Err(UnknownKey);
      }
      var stored := keys[k];
      if stored.installId != install {
        return Err(KeyInstallMismatch);
      }
      if Missing(assertion) {
        return Err(MissingField);
      }
      var counter := VerifyAssertion(crypto, assertion, c, stored);
      if counter.Err? {
        return Err(counter.error);
      }
      keys := keys[k := stored.(counter := counter.value)];
      r := Ok(Token(install, k, now + TOKEN_TTL_SECONDS));
    }
  }
}
