/** Token issue and the request identity (utils/auth.js and the signing step
    of the login handler): parsing of a `Bearer <token>` header that answers
    null instead of throwing, and the guard the protected handlers may call. */
module Auth {
  import opened Common

  /** The claims a token carries: the account id, username and e-mail. */
  datatype Claims = Claims(id: nat, username: string, email: string)

  /** jsonwebtoken, left uninterpreted: `sign(claims, secret)` and
      `verify(token, secret)`, the latter None wherever it would throw (bad
      signature, expired, malformed). */
  datatype Jwt = Jwt(sign: (Claims, string) -> string, verify: (string, string) -> Option<Claims>)

  /** Process configuration: the JWT_SECRET environment variable, if set. */
  datatype Env = Env(jwtSecret: Option<string>)

  const FallbackSecret := "dev_secret"

  /** The key the login handler signs with: JWT_SECRET, or the fallback when
      it is unset or empty. */
  function SigningSecret(env: Env): (k: string)
    ensures k != ""
    ensures env.jwtSecret.Some? && env.jwtSecret.value != "" ==> k == env.jwtSecret.value
  {
    if env.jwtSecret.Some? && env.jwtSecret.value != "" then env.jwtSecret.value else FallbackSecret
  }

  /** The key the header parser verifies with: JWT_SECRET only, no fallback. */
  function VerifyingSecret(env: Env): (k: Option<string>)
    ensures k.Some? <==> env.jwtSecret.Some? && env.jwtSecret.value != ""
    ensures k.Some? ==> k.value == SigningSecret(env)
  {
    if env.jwtSecret.Some? && env.jwtSecret.value != "" then Some(env.jwtSecret.value) else None
  }

  /** The token a successful login returns for an account. */
  function IssueToken(c: Claims, env: Env, jwt: Jwt): (t: string)
    ensures env.jwtSecret.Some? && env.jwtSecret.value != "" ==> t == jwt.sign(c, env.jwtSecret.value)
    ensures env.jwtSecret.None? || env.jwtSecret.value == "" ==> t == jwt.sign(c, FallbackSecret)
  {
    jwt.sign(c, SigningSecret(env))
  }

  /** `s.split(" ")`: the segments between single spaces, empty ones included. */
  function Split(s: string): (parts: seq<string>)
    ensures |parts| >= 1
    ensures forall i :: 0 <= i < |parts| ==> ' ' !in parts[i]
    ensures Join(parts) == s
  {
    if s == [] then [""]
    else if s[0] == ' ' then [""] + Split(s[1..])
    else
      var rest := Split(s[1..]);
      var parts := [[s[0]] + rest[0]] + rest[1..];
      assert parts[1..] == rest[1..];
      assert forall i :: 1 <= i < |parts| ==> parts[i] == rest[i];
      parts
  }

  /** Segments glued back together with single spaces. */
  function Join(parts: seq<string>): string
    requires |parts| >= 1
  {
    if |parts| == 1 then parts[0] else parts[0] + " " + Join(parts[1..])
  }

  /** The longest prefix of `s` without a space. */
  function Word(s: string): (w: string)
    ensures |w| <= |s| && w == s[..|w|]
    ensures ' ' !in w
    ensures |w| < |s| ==> s[|w|] == ' '
  {
    if s == [] || s[0] == ' ' then [] else [s[0]] + Word(s[1..])
  }

  const Scheme := "Bearer "

  /** The header shape the parser accepts: "Bearer", one space, then a
      non-empty token running to the next space or the end. */
  predicate IsBearer(h: string): (ok: bool)
    ensures ok ==> |h| > |Scheme| && h[..|Scheme|] == Scheme && h[|Scheme|] != ' '
  {
    |h| >= |Scheme| && h[..|Scheme|] == Scheme && Word(h[|Scheme|..]) != ""
  }

  /** The token of an accepted header. */
  function BearerToken(h: string): string
    requires IsBearer(h)
  {
    Word(h[|Scheme|..])
  }

  /** `getUserFromAuthHeader`: the verified claims, or None (null) for a
      missing or empty header, a wrong scheme, an empty token, an unset
      secret or a token that does not verify. It never throws. */
  function GetUserFromAuthHeader(header: Option<string>, env: Env, jwt: Jwt): (r: Option<Claims>)
    ensures header.None? || header.value == "" ==> r.None?
    ensures VerifyingSecret(env).None? ==> r.None?
    ensures r.Some? ==> IsBearer(header.value)
    ensures r == if header.Some? && IsBearer(header.value) && VerifyingSecret(env).Some?
                 then jwt.verify(BearerToken(header.value), VerifyingSecret(env).value)
                 else None
  {
    if header.None? || header.value == "" then None
    else
      var parts := Split(header.value);
      BearerParse(header.value);
      if parts[0] != BearerName || |parts| < 2 || parts[1] == "" then None
      else if env.jwtSecret.None? || env.jwtSecret.value == "" then None
      else jwt.verify(parts[1], env.jwtSecret.value)
  }

  /** The first segment of a split is the first word; the rest is the split
      of what follows the first space. */
  lemma {:induction false} SplitFirst(s: string)
    ensures Split(s)[0] == Word(s)
    ensures |Word(s)| == |s| ==> |Split(s)| == 1
    ensures |Word(s)| < |s| ==> Split(s)[1..] == Split(s[|Word(s)| + 1..])
  {
    if s != [] && s[0] != ' ' {
      SplitFirst(s[1..]);
      var rest := Split(s[1..]);
      assert Split(s) == [[s[0]] + rest[0]] + rest[1..];
      assert Word(s) == [s[0]] + Word(s[1..]);
      if |Word(s)| < |s| {
        assert s[1..][|Word(s[1..])| + 1..] == s[|Word(s)| + 1..];
      }
    }
  }

  /** A word followed by a space is the first word. */
  lemma {:induction false} WordBeforeSpace(w: string, s: string)
    requires |s| > |w| && s[..|w|] == w && ' ' !in w && s[|w|] == ' '
    ensures Word(s) == w
  {
    if w != [] {
      assert s[1..][..|w| - 1] == w[1..];
      WordBeforeSpace(w[1..], s[1..]);
    }
  }

  const BearerName := "Bearer"

  /** The segment test in `getUserFromAuthHeader` accepts exactly the
      headers of the form IsBearer, and its second segment is the token. */
  lemma BearerParse(h: string)
    requires h != ""
    ensures var parts := Split(h);
      (parts[0] == BearerName && |parts| >= 2 && parts[1] != "") <==> IsBearer(h)
    ensures IsBearer(h) ==> Split(h)[1] == BearerToken(h)
  {
    if IsBearer(h) {
      AcceptedHeaderSplits(h);
    } else {
      SplitFirst(h);
      var parts := Split(h);
      if parts[0] == BearerName && |parts| >= 2 {
        SplitBearer(h);
      }
    }
  }

  /** An IsBearer header splits into "Bearer", then the token's segment. */
  lemma AcceptedHeaderSplits(h: string)
    requires IsBearer(h)
    ensures Split(h)[0] == BearerName && |Split(h)| >= 2 && Split(h)[1] == BearerToken(h)
  {
    var w := BearerName;
    assert h[..|w|] == w && h[|w|] == ' ';
    assert ' ' !in w by {
      assert w == ['B', 'e', 'a', 'r', 'e', 'r'];
    }
    WordBeforeSpace(w, h);
    SplitFirst(h);
    SplitFirst(h[|Scheme|..]);
  }

  /** A header whose first segment is "Bearer" and that has a second segment
      starts with the scheme, and the second segment is the token's word. */
  lemma SplitBearer(h: string)
    requires Split(h)[0] == BearerName && |Split(h)| >= 2
    ensures h[..|Scheme|] == Scheme && Split(h)[1] == Word(h[|Scheme|..])
  {
    SplitFirst(h);
    SplitFirst(h[|Scheme|..]);
  }

  /** The scheme is case-sensitive and must be followed by one space: a
      lower-case scheme or a doubled space gives no identity. */
  lemma RejectedShapes(t: string, env: Env, jwt: Jwt)
    ensures GetUserFromAuthHeader(Some("bearer " + t), env, jwt).None?
    ensures GetUserFromAuthHeader(Some("Bearer  " + t), env, jwt).None?
  {
    assert ("bearer " + t)[..|Scheme|] != Scheme by {
      assert ("bearer " + t)[0] == 'b';
    }
    var h := "Bearer  " + t;
    assert h[|Scheme|..][0] == ' ';
  }

  /** Segments after the token are ignored: "Bearer t extra" verifies t. */
  lemma {:induction false} ExtraSegmentsIgnored(t: string, extra: string, env: Env, jwt: Jwt)
    requires t != "" && ' ' !in t
    requires VerifyingSecret(env).Some?
    ensures GetUserFromAuthHeader(Some(Scheme + t + " " + extra), env, jwt) == jwt.verify(t, VerifyingSecret(env).value)
  {
    var h := Scheme + t + " " + extra;
    assert h[..|Scheme|] == Scheme;
    var rest := h[|Scheme|..];
    assert rest == t + " " + extra;
    assert rest[..|t|] == t;
    WordBeforeSpace(t, rest);
  }

  /** With JWT_SECRET unset, no header yields an identity, although the
      login handler still signs tokens with the fallback key. */
  lemma UnsetSecretNeverIdentifies(header: Option<string>, jwt: Jwt)
    ensures GetUserFromAuthHeader(header, Env(None), jwt).None?
    ensures SigningSecret(Env(None)) == FallbackSecret
  {
  }

  /** A token is compact when it is non-empty and has no space (base64url
      segments joined by dots). */
  predicate Compact(token: string) {
    token != "" && ' ' !in token
  }

  /** Login then identify: when JWT_SECRET is set, and the library verifies
      what it signed with the same key into a compact token, the header
      "Bearer <token>" gives back exactly the signed claims. */
  lemma {:induction false} IssuedTokenIdentifies(c: Claims, env: Env, jwt: Jwt)
    requires VerifyingSecret(env).Some?
    requires Compact(IssueToken(c, env, jwt))
    requires jwt.verify(IssueToken(c, env, jwt), SigningSecret(env)) == Some(c)
    ensures GetUserFromAuthHeader(Some(Scheme + IssueToken(c, env, jwt)), env, jwt) == Some(c)
  {
    var t := IssueToken(c, env, jwt);
    var h := Scheme + t;
    assert h[..|Scheme|] == Scheme && h[|Scheme|..] == t;
    WordWhole(t);
  }

  /** A string without spaces is its own first word. */
  lemma {:induction false} WordWhole(s: string)
    requires ' ' !in s
    ensures Word(s) == s
  {
    if s != [] {
      assert ' ' !in s[1..] by {
        forall i | 0 <= i < |s[1..]| ensures s[1..][i] != ' ' {
          assert s[1..][i] == s[i + 1];
        }
      }
      WordWhole(s[1..]);
    }
  }

  /** The error `requireAuth` throws. */
  const Unauthorized := Exception("Unauthorized: Please login first.", StrCode("UNAUTHORIZED"), None, [])

  /** `requireAuth`: the context's user unchanged, or the UNAUTHORIZED error
      when there is none. */
  function RequireAuth(user: Option<Claims>): (r: Result<Claims, Exception>)
    ensures user.None? <==> r.Err?
    ensures r.Err? ==> r.error.code == StrCode("UNAUTHORIZED") && r.error.message == "Unauthorized: Please login first."
    ensures user.Some? ==> r == Ok(user.value)
  {
    match user
    case None => Err(Unauthorized)
    case Some(c) => Ok(c)
  }
}
