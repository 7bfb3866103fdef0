/**
 * Session-token claims as the token library sees them, and the one fact
 * about signing and verifying that the model relies on. The library itself
 * (signature, secret, clock) is not modelled: `sign` and `verify` are
 * parameters of the handlers and of the gate.
 */
module Jwt {
  import opened Wrappers

  /** A claim value: the handlers only ever put numbers and strings in a token. */
  datatype Json = JNum(n: int) | JStr(s: string)

  /** A token payload: claim name to value. */
  type Claims = map<string, Json>

  /** The claims the library adds by itself when a token is signed with an expiry. */
  const RegisteredClaims: set<string> := {"iat", "exp"}

  /** Reading a property of the decoded payload; an absent property is undefined. */
  function Lookup(c: Claims, key: string): Option<Json> {
    if key in c then Some(c[key]) else None
  }

  /** A signed token is a non-empty string without spaces (three base64url parts joined by dots). */
  predicate TokenShaped(t: string) {
    t != "" && ' ' !in t
  }

  /** `d` holds every claim of `c` unchanged, and besides them only registered claims. */
  predicate Extends(d: Claims, c: Claims) {
    && (forall k :: k in c ==> k in d && d[k] == c[k])
    && (forall k :: k in d && k !in c ==> k in RegisteredClaims)
  }

  /**
   * What the model assumes of the token library within a token's one-hour
   * validity window: a token it signed is space-free and non-empty, and
   * verifying it returns the signed claims plus registered ones only.
   */
  ghost predicate VerifiesOwnTokens(sign: Claims -> string, verify: string -> Option<Claims>) {
    forall c: Claims :: TokenShaped(sign(c)) && verify(sign(c)).Some? && Extends(verify(sign(c)).value, c)
  }

  /** Under the token-library assumption, a token over claims without `username` verifies to claims without it. */
  lemma OwnTokenClaims(sign: Claims -> string, verify: string -> Option<Claims>, c: Claims)
    requires VerifiesOwnTokens(sign, verify)
    requires "username" !in c
    ensures TokenShaped(sign(c)) && verify(sign(c)).Some?
    ensures forall k :: k in c ==> Lookup(verify(sign(c)).value, k) == Some(c[k])
    ensures Lookup(verify(sign(c)).value, "username") == None
  {
    assert "username" !in RegisteredClaims;
  }
}
