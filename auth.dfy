/**
 * The connection token check of src/lib/server/websocket.js:22, 41-60: with a
 * token configured, a connection is admitted when its `?token=` query value
 * equals it or its `Authorization` header is `Bearer <token>`, the scheme in
 * any letter case.
 */
module Auth {
  import opened Wrappers

  /** The token variable, where an unset or empty variable configures no token (line 22). */
  function ConfiguredToken(env: Option<string>): Option<string> {
    if env.Some? && env.value != "" then env else None
  }

  /** Lower-casing of one character, for the ASCII letters. */
  function LowerChar(c: char): char {
    if 'A' <= c <= 'Z' then (c as int + ('a' as int - 'A' as int)) as char else c
  }

  function ToLower(s: string): (r: string)
    ensures |r| == |s|
    ensures forall i :: 0 <= i < |s| ==> r[i] == LowerChar(s[i])
  {
    if s == [] then [] else [LowerChar(s[0])] + ToLower(s[1..])
  }

  function StartsWith(s: string, prefix: string): bool {
    |prefix| <= |s| && s[..|prefix|] == prefix
  }

  const Scheme: string := "bearer "

  /** Lower-casing a whole string and then taking a prefix lower-cases the prefix. */
  lemma ToLowerPrefix(s: string, n: nat)
    requires n <= |s|
    ensures ToLower(s)[..n] == ToLower(s[..n])
  {
  }

  lemma ToLowerStartsWith(s: string, p: string)
    ensures StartsWith(ToLower(s), p) <==> |p| <= |s| && ToLower(s[..|p|]) == p
  {
    if |p| <= |s| {
      ToLowerPrefix(s, |p|);
    }
  }

  /**
   * The credential of the header (lines 47-50): when the header, lower-cased,
   * starts with the scheme, everything after its first seven characters.
   */
  function BearerToken(header: Option<string>): (b: Option<string>)
    ensures b.Some? <==> header.Some? && |header.value| >= |Scheme| && ToLower(header.value[..|Scheme|]) == Scheme
    ensures b.Some? ==> b.value == header.value[|Scheme|..]
  {
    if header.Some? then
      ToLowerStartsWith(header.value, Scheme);
      if StartsWith(ToLower(header.value), Scheme) then Some(header.value[|Scheme|..]) else None
    else None
  }

  /** The check of line 51: the query token or the header credential equals the token, or none is configured. */
  function Authorized(token: Option<string>, query: Option<string>, header: Option<string>): (ok: bool)
    ensures token.None? ==> ok
    ensures token.Some? && query != token && header.None? ==> !ok
  {
    token.None? || query == token || BearerToken(header) == token
  }

  /**
   * With a token configured, admission holds exactly when the query token is
   * it, or the header's first seven characters lower-case to `bearer ` and
   * the rest of the header is the token; with none configured, everything is
   * admitted.
   */
  lemma AuthorizedIff(token: Option<string>, query: Option<string>, header: Option<string>)
    ensures token.None? ==> Authorized(token, query, header)
    ensures token.Some? ==>
      (Authorized(token, query, header) <==>
        || query == token
        || (&& header.Some? && |header.value| >= |Scheme|
            && ToLower(header.value[..|Scheme|]) == Scheme
            && header.value[|Scheme|..] == token.value))
  {
  }

  /** An unset or empty token variable leaves every connection unauthenticated. */
  lemma NoTokenAdmitsAll(env: Option<string>, query: Option<string>, header: Option<string>)
    requires env.None? || env == Some("")
    ensures Authorized(ConfiguredToken(env), query, header)
  {
  }

  /**
   * The scheme word is matched without regard to letter case; another scheme,
   * or no credential at all, is refused.
   */
  lemma BearerAnyCase(t: string)
    ensures Authorized(Some(t), None, Some("Bearer " + t))
    ensures Authorized(Some(t), None, Some("BEARER " + t))
    ensures !Authorized(Some(t), None, Some("Basic " + t))
    ensures !Authorized(Some(t), None, None)
  {
    assert ToLower("Basic " + t)[1] == 'a';
    assert !StartsWith(ToLower("Basic " + t), Scheme);
    AuthorizedIff(Some(t), None, Some("Bearer " + t));
    assert ("Bearer " + t)[..|Scheme|] == "Bearer ";
    assert ToLower("Bearer ") == Scheme;
    AuthorizedIff(Some(t), None, Some("BEARER " + t));
    assert ("BEARER " + t)[..|Scheme|] == "BEARER ";
    assert ToLower("BEARER ") == Scheme;
  }
}
