/** Stateless crypto sessions: a session key sealed into a signed token that any replica with the
    right key-encryption keys can open again. */
module Sessions {
  import opened Text
  import opened Base64Url
  import opened Joining

  const HARD_MAX_TTL := 300
  const CLOCK_SKEW := 5
  const AUDIENCE := "crypto-session"
  const CRYPTO_VERSION := "v1"
  const KEY_BYTES := 32
  const NONCE_BYTES := 12

  datatype SessionError = SessionInvalid | RingInvalid

  // ----- what is taken as given -----

  datatype Claim = Words(s: string) | Number(n: int) | Dict(entries: map<string, string>) | Other

  type Claims = map<string, Claim>

  /** ECDH and HKDF, AES-GCM, the JWT signature, SHA-256 in hex, and `fmt.Sprint` of a claim. */
  datatype Suite = Suite(
    ecdh: (Bytes, Bytes) -> Option<Bytes>,
    publicKey: Bytes -> Bytes,
    derive: (Bytes, Bytes) -> Bytes,
    seal: (Bytes, Bytes, Bytes, string) -> Bytes,
    open: (Bytes, Bytes, Bytes, string) -> Option<Bytes>,
    sign: (string, Claims) -> string,
    verify: (string, string) -> Option<Claims>,
    sha256: string -> string,
    sprint: Claim -> string)

  ghost predicate OpensSealed(suite: Suite) {
    && (forall shared, salt :: |suite.derive(shared, salt)| == KEY_BYTES)
    && (forall key, nonce, plain, aad ::
          && |suite.seal(key, nonce, plain, aad)| == |plain| + 16
          && suite.open(key, nonce, suite.seal(key, nonce, plain, aad), aad) == Some(plain))
    && (forall s :: suite.sprint(Words(s)) == s)
  }

  /** Nothing about forgery here: what was sealed opens, what was signed verifies. */
  ghost predicate Lawful(suite: Suite) {
    OpensSealed(suite) && forall secret, claims :: suite.verify(secret, suite.sign(secret, claims)) == Some(claims)
  }

  // ----- key ring -----

  datatype KekRing = KekRing(keys: map<string, Bytes>, active: string)

  ghost predicate ValidRing(r: KekRing) {
    && r.active != "" && r.active in r.keys
    && forall kid :: kid in r.keys ==> |r.keys[kid]| == KEY_BYTES
  }

  /** Checks every key, then copies the map entry by entry. */
  method NewKekRing(keys: map<string, Bytes>, active: string) returns (ring: Result<KekRing, SessionError>)
    ensures ring.Ok? <==> ValidRing(KekRing(keys, active))
    ensures ring.Ok? ==> ring.value == KekRing(keys, active)
  {
    if active == "" || active !in keys {
      return Err(RingInvalid);
    }
    var left := keys.Keys;
    while left != {}
      invariant left <= keys.Keys
      invariant forall kid :: kid in keys && kid !in left ==> |keys[kid]| == KEY_BYTES
      decreases |left|
    {
      var kid :| kid in left;
      if |keys[kid]| != KEY_BYTES {
        return Err(RingInvalid);
      }
      left := left - {kid};
    }
    var copied: map<string, Bytes> := map[];
    left := keys.Keys;
    while left != {}
      invariant left <= keys.Keys && copied.Keys == keys.Keys - left
      invariant forall kid :: kid in copied ==> copied[kid] == keys[kid]
      decreases |left|
    {
      var kid :| kid in left;
      copied := copied[kid := keys[kid]];
      left := left - {kid};
    }
    return Ok(KekRing(copied, active));
  }

  function KeyFor(r: KekRing, kid: string): Result<Bytes, SessionError> {
    if kid in r.keys then Ok(r.keys[kid]) else Err(SessionInvalid)
  }

  // ----- manager -----

  datatype Manager = Manager(kek: KekRing, secret: string, issuer: string, namespace: string, ttl: int)

  function NewManager(kek: KekRing, secret: string, issuer: string, namespace: string, ttlSeconds: int): Manager {
    var ttl := if ttlSeconds <= 0 || ttlSeconds > HARD_MAX_TTL then HARD_MAX_TTL else ttlSeconds;
    var ns := TrimSpace(namespace);
    Manager(kek, secret, issuer, if ns == "" then "activity-log" else ns, ttl)
  }

  /** What every manager made by `NewManager` over a checked ring satisfies. */
  ghost predicate ValidManager(m: Manager) {
    ValidRing(m.kek) && 0 < m.ttl <= HARD_MAX_TTL
  }

  /** Ring, secret and issuer are taken over; the TTL is the one configured if it lies in 1 to 300 seconds and
      300 otherwise; a namespace that is blank is replaced. */
  lemma NewManagerIsValid(kek: KekRing, secret: string, issuer: string, namespace: string, ttlSeconds: int)
    ensures var m := NewManager(kek, secret, issuer, namespace, ttlSeconds);
            && (ValidRing(kek) ==> ValidManager(m))
            && m.kek == kek && m.secret == secret && m.issuer == issuer
            && (1 <= ttlSeconds <= 300 ==> m.ttl == ttlSeconds) && (!(1 <= ttlSeconds <= 300) ==> m.ttl == 300)
            && (Blank(namespace) ==> m.namespace == "activity-log")
            && (!Blank(namespace) ==> m.namespace == TrimSpace(namespace))
  {
    BlankIsEmpty(namespace);
  }

  // ----- input checks -----

  const FORBIDDEN_DIGESTS := ["", "default", "all", "*", "null", "none", "undefined", "anonymous"]

  function TenantDigest(digest: string): Result<string, SessionError> {
    var d := TrimSpace(digest);
    if ToLower(d) in FORBIDDEN_DIGESTS || |d| < 16 then Err(SessionInvalid) else Ok(d)
  }

  predicate IsHex(s: string) {
    forall c :: c in s ==> '0' <= c <= '9' || 'a' <= c <= 'f'
  }

  /** Accepted is every digest that has 16 characters or more between its outer spaces: the forbidden words are
      all shorter, and so exclude nothing more. */
  lemma TenantDigestExactly(digest: string)
    ensures TenantDigest(digest) == if |TrimSpace(digest)| >= 16 then Ok(TrimSpace(digest)) else Err(SessionInvalid)
  {
    assert forall word :: word in FORBIDDEN_DIGESTS ==> |word| < 16;
  }

  /** What follows "bearer " in any case, or else the whole text; without outer spaces. */
  function BearerToken(authorization: string): string {
    var t := TrimSpace(authorization);
    if "bearer " <= ToLower(t) then TrimSpace(t[7..]) else t
  }

  function HashAccessToken(suite: Suite, authorization: string): Result<string, SessionError> {
    var token := BearerToken(authorization);
    if token == "" then Err(SessionInvalid) else Ok(suite.sha256(token))
  }

  /** The text is a token with blanks around it, after the word "bearer" in any case and a space, or without
      that. */
  ghost predicate PresentsAs(authorization: string, l: string, scheme: string, m: string, token: string, r: string) {
    && authorization == l + (scheme + m + token) + r && Blank(l) && Blank(m) && Blank(r)
    && token != "" && Trimmed(token)
    && (ToLower(scheme) == "bearer " || (scheme == "" && m == "" && !("bearer " <= ToLower(token))))
  }

  ghost predicate Presents(authorization: string, token: string) {
    exists l, scheme, m, r :: PresentsAs(authorization, l, scheme, m, token, r)
  }

  lemma SchemeIsCut(scheme: string, rest: string)
    requires ToLower(scheme) == "bearer "
    ensures "bearer " <= ToLower(scheme + rest) && (scheme + rest)[7..] == rest && !IsSpace(scheme[0])
  {
    assert |scheme| == 7 && LowerChar(scheme[0]) == ToLower(scheme)[0] == 'b';
    assert ToLower(scheme + rest)[..7] == ToLower(scheme);
  }

  lemma PresentedIsToken(authorization: string, l: string, scheme: string, m: string, token: string, r: string)
    requires PresentsAs(authorization, l, scheme, m, token, r)
    ensures BearerToken(authorization) == token
  {
    var middle := scheme + m + token;
    if scheme == "" {
      assert middle == token;
    } else {
      Associative(scheme, m, token);
      SchemeIsCut(scheme, m + token);
      TrimmedMiddle(m, token, "");
      assert m + token + "" == m + token;
    }
    assert middle[|middle| - 1] == token[|token| - 1];
    TrimmedMiddle(l, middle, r);
  }

  lemma BlankEnd(front: string, more: string)
    requires Blank(more) && more != ""
    ensures var whole := front + more; IsSpace(whole[|whole| - 1])
  {
    assert more[|more| - 1] in more;
  }

  lemma RestSplits(rest: string) returns (m: string)
    requires |rest| > 0 && !IsSpace(rest[|rest| - 1])
    ensures Blank(m) && rest == m + TrimSpace(rest) && TrimSpace(rest) != ""
  {
    var token := TrimSpace(rest);
    TrimSpaceExactly(rest, token);
    var more: string;
    m, more :| Blank(m) && Blank(more) && rest == m + token + more;
    if more != "" {
      BlankEnd(m + token, more);
      assert false;
    }
    assert m + token + "" == m + token;
    assert token == "" ==> rest == "" + m;
    if token == "" {
      BlankEnd("", m);
      assert false;
    }
  }

  lemma SchemeSplits(t: string)
    requires |t| > 0 && !IsSpace(t[|t| - 1]) && "bearer " <= ToLower(t)
    ensures |t| > 7 && ToLower(t[..7]) == "bearer " && t == t[..7] + t[7..] && t[7..][|t| - 8] == t[|t| - 1]
  {
    assert ToLower(t)[..7] == "bearer " && ToLower(t[..7]) == ToLower(t)[..7];
    assert LowerChar(t[6]) == ToLower(t)[6] == ' ';
    assert IsSpace(t[6]);
  }

  lemma TokenIsPresented(authorization: string)
    requires TrimSpace(authorization) != ""
    ensures BearerToken(authorization) != "" && Presents(authorization, BearerToken(authorization))
  {
    var t := TrimSpace(authorization);
    TrimSpaceExactly(authorization, t);
    var l, r :| Blank(l) && Blank(r) && authorization == l + t + r;
    if "bearer " <= ToLower(t) {
      SchemeSplits(t);
      var m := RestSplits(t[7..]);
      var token := TrimSpace(t[7..]);
      TrimSpaceTrims(t[7..]);
      Associative(t[..7], m, token);
      assert PresentsAs(authorization, l, t[..7], m, token, r);
    } else {
      assert "" + "" + t == t;
      assert PresentsAs(authorization, l, "", "", t, r);
    }
  }

  /** Every text that is not blank presents exactly one token, whose hash is given; a blank one gives an error. */
  lemma HashAccessTokenExactly(suite: Suite, authorization: string)
    ensures HashAccessToken(suite, authorization).Err? <==> Blank(authorization)
    ensures forall token :: Presents(authorization, token) ==>
                              HashAccessToken(suite, authorization) == Ok(suite.sha256(token))
    ensures forall s, t :: Presents(authorization, s) && Presents(authorization, t) ==> s == t
    ensures !Blank(authorization) ==> exists token :: Presents(authorization, token)
  {
    BlankIsEmpty(authorization);
    forall token | Presents(authorization, token) ensures BearerToken(authorization) == token && token != "" {
      var l, scheme, m, r :| PresentsAs(authorization, l, scheme, m, token, r);
      PresentedIsToken(authorization, l, scheme, m, token, r);
    }
    if !Blank(authorization) {
      TokenIsPresented(authorization);
    }
  }

  // ----- handshake -----

  /** The ten fields bound to a session key. */
  datatype Bound = Bound(
    namespace: string, digest: string, sid: string, sub: string, scope: string, version: string,
    iat: int, exp: int, kid: string, ath: string)

  function BoundParts(b: Bound): seq<string> {
    [b.namespace, b.digest, b.sid, b.sub, b.scope, b.version, Decimal(b.iat), Decimal(b.exp), b.kid, b.ath]
  }

  function SessionAad(b: Bound): string {
    Join(BoundParts(b), '|')
  }

  /** One issued session. */
  datatype Issue = Issue(secret: string, issuer: string, bound: Bound, kek: Bytes, nonce: Bytes, key: Bytes)

  function SealedKey(suite: Suite, i: Issue): Bytes {
    suite.seal(i.kek, i.nonce, i.key, SessionAad(i.bound))
  }

  function ClaimsOf(suite: Suite, i: Issue): Claims {
    map["iss" := Words(i.issuer), "aud" := Words(AUDIENCE), "sub" := Words(i.bound.sub),
        "scope" := Words(i.bound.scope),
        "crypto_session_id" := Words(i.bound.sid), "namespace" := Words(i.bound.namespace),
        "tenant_digest" := Words(i.bound.digest), "crypto_version" := Words(i.bound.version),
        "iat" := Number(i.bound.iat), "exp" := Number(i.bound.exp), "kek_kid" := Words(i.bound.kid),
        "access_token_hash" := Words(i.bound.ath),
        "session_envelope" := Dict(map["nonce" := Encode(i.nonce), "ciphertext" := Encode(SealedKey(suite, i))])]
  }

  function TokenOf(suite: Suite, i: Issue): string {
    suite.sign(i.secret, ClaimsOf(suite, i))
  }

  /** Clock and randomness of one handshake. */
  datatype Env = Env(now: int, serverPriv: Bytes, salt: Bytes, sid: string, nonce: Bytes)

  datatype HandshakeRequest = HandshakeRequest(
    clientPublicB64: string, subject: string, scope: string, tenantDigest: string, accessTokenHash: string)

  /** The session a handshake issues, or why it does not. */
  function Issued(suite: Suite, m: Manager, r: HandshakeRequest, env: Env): Result<Issue, SessionError> {
    var digest := TenantDigest(r.tenantDigest);
    if digest.Err? then Err(digest.error)
    else
      var ath := ToLower(TrimSpace(r.accessTokenHash));
      if |ath| != 64 || !IsHex(ath) then Err(SessionInvalid)
      else
        var clientPub := CanonicalDecode(r.clientPublicB64);
        if clientPub.Err? then Err(SessionInvalid)
        else
          var shared := suite.ecdh(clientPub.value, env.serverPriv);
          if shared == None then Err(SessionInvalid)
          else
            var kid := m.kek.active;
            var kek := KeyFor(m.kek, kid);
            if kek.Err? then Err(kek.error)
            else
              var bound := Bound(m.namespace, digest.value, env.sid, r.subject, r.scope, CRYPTO_VERSION,
                                 env.now, env.now + m.ttl, kid, ath);
              Ok(Issue(m.secret, m.issuer, bound, kek.value, env.nonce, suite.derive(shared.value, env.salt)))
  }

  /** The client's public key as it was sent, and what both sides share. */
  ghost predicate Shares(suite: Suite, r: HandshakeRequest, env: Env, shared: Bytes) {
    exists public :: |public| > 0 && r.clientPublicB64 == Encode(public)
                     && suite.ecdh(public, env.serverPriv) == Some(shared)
  }

  predicate ProperHash(text: string) {
    |ToLower(TrimSpace(text))| == 64 && IsHex(ToLower(TrimSpace(text)))
  }

  /** A session is issued exactly when the digest has 16 characters, the token hash is 64 hexadecimal digits and
      the client's key is canonical and on the curve. It belongs to that subject, scope, tenant and token, runs
      from now for the manager's TTL, and its key is derived from what both sides share. */
  lemma IssuedExactly(suite: Suite, m: Manager, r: HandshakeRequest, env: Env)
    requires ValidManager(m)
    ensures var issued := Issued(suite, m, r, env);
            && (issued.Ok? <==> |TrimSpace(r.tenantDigest)| >= 16 && ProperHash(r.accessTokenHash)
                                && exists shared :: Shares(suite, r, env, shared))
            && (issued.Ok? ==>
                  var i, b := issued.value, issued.value.bound;
                  && b.sub == r.subject && b.scope == r.scope && b.digest == TrimSpace(r.tenantDigest)
                  && b.ath == ToLower(TrimSpace(r.accessTokenHash)) && b.sid == env.sid && b.namespace == m.namespace
                  && b.version == "v1" && b.iat == env.now && b.exp == env.now + m.ttl
                  && i.secret == m.secret && i.issuer == m.issuer && i.nonce == env.nonce
                  && b.kid == m.kek.active && i.kek == m.kek.keys[m.kek.active]
                  && forall shared :: Shares(suite, r, env, shared) ==> i.key == suite.derive(shared, env.salt))
  {
    TenantDigestExactly(r.tenantDigest);
    var public := CanonicalDecode(r.clientPublicB64);
    if public.Ok? {
      CanonicalIsExact(r.clientPublicB64, public.value);
    }
    forall shared | Shares(suite, r, env, shared)
      ensures public.Ok? && suite.ecdh(public.value, env.serverPriv) == Some(shared)
    {
      var b :| |b| > 0 && r.clientPublicB64 == Encode(b) && suite.ecdh(b, env.serverPriv) == Some(shared);
      CanonicalIsExact(r.clientPublicB64, b);
    }
    if public.Ok? && suite.ecdh(public.value, env.serverPriv).Some? {
      assert Shares(suite, r, env, suite.ecdh(public.value, env.serverPriv).value);
    }
  }

  datatype HandshakeResult = HandshakeResult(
    serverPublicKey: string, salt: string, sid: string, token: string, expiresIn: int)

  function Handshake(suite: Suite, m: Manager, r: HandshakeRequest, env: Env): Result<HandshakeResult, SessionError> {
    var issue := Issued(suite, m, r, env);
    if issue.Err? then Err(issue.error)
    else
      Ok(HandshakeResult(Encode(suite.publicKey(env.serverPriv)), Encode(env.salt), env.sid,
                         TokenOf(suite, issue.value), m.ttl))
  }

  /** What a client does with the answer: decode the server's public key and the salt, and derive. */
  function ClientKey(suite: Suite, clientPriv: Bytes, answer: HandshakeResult): Option<Bytes> {
    var serverPub, salt := CanonicalDecode(answer.serverPublicKey), CanonicalDecode(answer.salt);
    if serverPub.Err? || salt.Err? then None
    else
      var shared := suite.ecdh(serverPub.value, clientPriv);
      if shared == None then None else Some(suite.derive(shared.value, salt.value))
  }

  /** The key sealed into the token is the one the client derives, since either side of the exchange
      computes the same secret; and the answer names the issued session and its lifetime. */
  lemma ClientAgrees(suite: Suite, m: Manager, r: HandshakeRequest, env: Env, clientPriv: Bytes)
    requires suite.ecdh(suite.publicKey(clientPriv), env.serverPriv)
             == suite.ecdh(suite.publicKey(env.serverPriv), clientPriv)
    requires |suite.publicKey(clientPriv)| > 0 && |suite.publicKey(env.serverPriv)| > 0 && |env.salt| == 16
    requires r.clientPublicB64 == Encode(suite.publicKey(clientPriv))
    requires Handshake(suite, m, r, env).Ok?
    ensures Issued(suite, m, r, env).Ok?
    ensures var issue, answer := Issued(suite, m, r, env).value, Handshake(suite, m, r, env).value;
            && ClientKey(suite, clientPriv, answer) == Some(issue.key)
            && answer.sid == issue.bound.sid && answer.expiresIn == issue.bound.exp - issue.bound.iat
  {
    CanonicalIsExact(r.clientPublicB64, suite.publicKey(clientPriv));
    var pub := suite.publicKey(env.serverPriv);
    CanonicalIsExact(Encode(pub), pub);
    CanonicalIsExact(Encode(env.salt), env.salt);
  }

  // ----- resolve -----

  function ClaimText(suite: Suite, claims: Claims, key: string): string {
    if key in claims then suite.sprint(claims[key]) else "<nil>"
  }

  function ClaimInt(claims: Claims, key: string): Option<int> {
    if key in claims && claims[key].Number? then Some(claims[key].n) else None
  }

  /** Signature, audience, issuer (an empty issuer is not compared) and, with five seconds of leeway,
      `exp` and `nbf` when present. */
  function ParseToken(suite: Suite, m: Manager, token: string, now: int): Option<Claims> {
    var claims := suite.verify(m.secret, token);
    if claims == None then None
    else
      var c := claims.value;
      if !("aud" in c && c["aud"] == Words(AUDIENCE)) then None
      else if m.issuer != "" && !("iss" in c && c["iss"] == Words(m.issuer)) then None
      else if "exp" in c && !(c["exp"].Number? && now < c["exp"].n + CLOCK_SKEW) then None
      else if "nbf" in c && !(c["nbf"].Number? && c["nbf"].n - CLOCK_SKEW <= now) then None
      else Some(c)
  }

  datatype Query = Query(token: string, sid: string, tenantDigest: string, authorization: string, namespace: string)

  datatype Verified = Verified(sid: string, key: Bytes, claims: Claims)

  /** The fields the additional data is rebuilt from. */
  function BoundOf(suite: Suite, c: Claims, sid: string, iat: int, exp: int): Bound {
    Bound(ClaimText(suite, c, "namespace"), ClaimText(suite, c, "tenant_digest"), sid, ClaimText(suite, c, "sub"),
          ClaimText(suite, c, "scope"), ClaimText(suite, c, "crypto_version"), iat, exp,
          ClaimText(suite, c, "kek_kid"), ToLower(ClaimText(suite, c, "access_token_hash")))
  }

  function ExpectedNamespace(m: Manager, q: Query): string {
    if TrimSpace(q.namespace) == "" then m.namespace else TrimSpace(q.namespace)
  }

  /** Everything that has to agree before the envelope is looked at. */
  predicate ClaimsAgree(suite: Suite, m: Manager, q: Query, digest: string, bearerHash: string, c: Claims) {
    && ClaimText(suite, c, "crypto_session_id") == q.sid
    && ClaimText(suite, c, "namespace") == ExpectedNamespace(m, q)
    && ClaimText(suite, c, "tenant_digest") == digest
    && ClaimText(suite, c, "crypto_version") == CRYPTO_VERSION
    && ToLower(ClaimText(suite, c, "access_token_hash")) == bearerHash
  }

  function EnvelopeText(suite: Suite, entries: map<string, string>, key: string): string {
    if key in entries then entries[key] else "<nil>"
  }

  function Resolve(suite: Suite, m: Manager, q: Query, now: int): Result<Verified, SessionError> {
    var digest := TenantDigest(q.tenantDigest);
    var bearerHash := HashAccessToken(suite, q.authorization);
    if digest.Err? then Err(digest.error)
    else if bearerHash.Err? then Err(bearerHash.error)
    else
      var parsed := ParseToken(suite, m, q.token, now);
      if parsed == None then Err(SessionInvalid)
      else
        var c := parsed.value;
        var iat, exp := ClaimInt(c, "iat"), ClaimInt(c, "exp");
        if !ClaimsAgree(suite, m, q, digest.value, bearerHash.value, c) || iat == None || exp == None
           || exp.value - iat.value > HARD_MAX_TTL || exp.value <= now - CLOCK_SKEW
           || !("session_envelope" in c && c["session_envelope"].Dict?)
        then Err(SessionInvalid)
        else Unseal(suite, m, c, BoundOf(suite, c, q.sid, iat.value, exp.value), c["session_envelope"].entries)
  }

  function Unseal(suite: Suite, m: Manager, c: Claims, b: Bound, entries: map<string, string>)
    : Result<Verified, SessionError>
  {
    var nonce := CanonicalDecode(EnvelopeText(suite, entries, "nonce"));
    var ciphertext := CanonicalDecode(EnvelopeText(suite, entries, "ciphertext"));
    if nonce.Err? || ciphertext.Err? || |nonce.value| != NONCE_BYTES || |ciphertext.value| == 0 then Err(SessionInvalid)
    else
      var kek := KeyFor(m.kek, b.kid);
      if kek.Err? then Err(SessionInvalid)
      else
        var key := suite.open(kek.value, nonce.value, ciphertext.value, SessionAad(b));
        if key == None || |key.value| != KEY_BYTES then Err(SessionInvalid) else Ok(Verified(b.sid, key.value, c))
  }

  // ----- replicas and rotation -----

  lemma {:induction false} HexIsLower(s: string)
    requires IsHex(s)
    ensures ToLower(s) == s
  {
    forall k | 0 <= k < |s| ensures LowerChar(s[k]) == s[k] { assert s[k] in s; }
  }

  /** What an issued session's claims read back as. */
  ghost predicate Reads(suite: Suite, c: Claims, i: Issue) {
    && "aud" in c && c["aud"] == Words(AUDIENCE) && "iss" in c && c["iss"] == Words(i.issuer)
    && "exp" in c && c["exp"] == Number(i.bound.exp) && "nbf" !in c
    && "session_envelope" in c
    && c["session_envelope"] == Dict(map["nonce" := Encode(i.nonce), "ciphertext" := Encode(SealedKey(suite, i))])
    && ClaimInt(c, "iat") == Some(i.bound.iat) && ClaimInt(c, "exp") == Some(i.bound.exp)
    && ClaimText(suite, c, "crypto_session_id") == i.bound.sid
    && ClaimText(suite, c, "namespace") == i.bound.namespace
    && ClaimText(suite, c, "tenant_digest") == i.bound.digest
    && ClaimText(suite, c, "crypto_version") == i.bound.version
    && ToLower(ClaimText(suite, c, "access_token_hash")) == i.bound.ath
    && BoundOf(suite, c, i.bound.sid, i.bound.iat, i.bound.exp) == i.bound
  }

  lemma FixedClaimsRead(suite: Suite, i: Issue)
    ensures var c := ClaimsOf(suite, i);
            && "aud" in c && c["aud"] == Words(AUDIENCE) && "iss" in c && c["iss"] == Words(i.issuer)
            && ClaimInt(c, "iat") == Some(i.bound.iat) && ClaimInt(c, "exp") == Some(i.bound.exp) && "nbf" !in c
  {
  }

  lemma EnvelopeRead(suite: Suite, i: Issue)
    ensures var c := ClaimsOf(suite, i);
            && "session_envelope" in c
            && c["session_envelope"]
               == Dict(map["nonce" := Encode(i.nonce), "ciphertext" := Encode(SealedKey(suite, i))])
  {
  }

  lemma PersonRead(suite: Suite, i: Issue)
    requires forall s :: suite.sprint(Words(s)) == s
    ensures var c := ClaimsOf(suite, i);
            && ClaimText(suite, c, "crypto_session_id") == i.bound.sid
            && ClaimText(suite, c, "sub") == i.bound.sub && ClaimText(suite, c, "scope") == i.bound.scope
            && ClaimText(suite, c, "access_token_hash") == i.bound.ath
  {
  }

  lemma PlaceRead(suite: Suite, i: Issue)
    requires forall s :: suite.sprint(Words(s)) == s
    ensures var c := ClaimsOf(suite, i);
            && ClaimText(suite, c, "namespace") == i.bound.namespace
            && ClaimText(suite, c, "tenant_digest") == i.bound.digest
            && ClaimText(suite, c, "crypto_version") == i.bound.version && ClaimText(suite, c, "kek_kid") == i.bound.kid
  {
  }

  lemma ClaimsRead(suite: Suite, i: Issue, c: Claims)
    requires forall s :: suite.sprint(Words(s)) == s
    requires IsHex(i.bound.ath) && c == ClaimsOf(suite, i)
    ensures Reads(suite, c, i)
  {
    FixedClaimsRead(suite, i);
    EnvelopeRead(suite, i);
    PersonRead(suite, i);
    PlaceRead(suite, i);
    HexIsLower(i.bound.ath);
  }

  lemma IssuedFacts(suite: Suite, m: Manager, r: HandshakeRequest, env: Env)
    requires Lawful(suite) && ValidManager(m) && Issued(suite, m, r, env).Ok?
    ensures var i := Issued(suite, m, r, env).value;
            && i.secret == m.secret && i.issuer == m.issuer && i.nonce == env.nonce && |i.key| == KEY_BYTES
            && i.bound.namespace == m.namespace && i.bound.kid == m.kek.active && i.kek == m.kek.keys[m.kek.active]
            && IsHex(i.bound.ath) && |i.bound.ath| == 64 && i.bound.version == CRYPTO_VERSION
            && i.bound.iat == env.now && i.bound.exp == env.now + m.ttl
  {
  }

  lemma UnsealIssued(suite: Suite, m: Manager, i: Issue, c: Claims)
    requires Reads(suite, c, i)
    requires OpensSealed(suite) && |i.nonce| == NONCE_BYTES && |i.key| == KEY_BYTES
    requires i.bound.kid in m.kek.keys ==> m.kek.keys[i.bound.kid] == i.kek
    ensures Unseal(suite, m, c, i.bound, c["session_envelope"].entries)
            == if i.bound.kid in m.kek.keys then Ok(Verified(i.bound.sid, i.key, c)) else Err(SessionInvalid)
  {
    var sealed := SealedKey(suite, i);
    CanonicalIsExact(Encode(i.nonce), i.nonce);
    CanonicalIsExact(Encode(sealed), sealed);
    assert suite.open(i.kek, i.nonce, sealed, SessionAad(i.bound)) == Some(i.key);
  }

  /** Resolving claims that read as an issued session's. */
  lemma ResolveIssued(suite: Suite, m: Manager, q: Query, now: int, i: Issue, c: Claims)
    requires suite.verify(m.secret, q.token) == Some(c) && Reads(suite, c, i)
    requires m.issuer == i.issuer || m.issuer == ""
    requires i.bound.exp <= i.bound.iat + HARD_MAX_TTL && i.bound.version == CRYPTO_VERSION
    ensures Resolve(suite, m, q, now)
            == if && now < i.bound.exp + CLOCK_SKEW && q.sid == i.bound.sid
                  && ExpectedNamespace(m, q) == i.bound.namespace
                  && TenantDigest(q.tenantDigest) == Ok(i.bound.digest)
                  && HashAccessToken(suite, q.authorization) == Ok(i.bound.ath)
               then Unseal(suite, m, c, i.bound, c["session_envelope"].entries)
               else Err(SessionInvalid)
  {
  }

  /** A token from one manager's handshake, presented to any manager with the same secret and issuer
      whose ring never gives the sealing kid another key: it resolves, to the very key sealed, if and
      only if the ring still knows that kid (active or not), the caller names the same session, tenant,
      namespace and a bearer token with the hash the session was issued to, and it is before expiry plus five
      seconds. */
  lemma TokenResolvesExactly(suite: Suite, m1: Manager, r: HandshakeRequest, env: Env, m2: Manager, q: Query, now: int)
    requires Lawful(suite) && ValidManager(m1) && |env.nonce| == NONCE_BYTES
    requires Issued(suite, m1, r, env).Ok? && Handshake(suite, m1, r, env).Ok?
    requires m2.secret == m1.secret && m2.issuer == m1.issuer
    requires m1.kek.active in m2.kek.keys ==> m2.kek.keys[m1.kek.active] == m1.kek.keys[m1.kek.active]
    requires q.token == Handshake(suite, m1, r, env).value.token
    ensures var i := Issued(suite, m1, r, env).value;
            var resolved := Resolve(suite, m2, q, now);
            && (resolved.Ok? <==>
                && m1.kek.active in m2.kek.keys
                && now < env.now + m1.ttl + 5
                && q.sid == env.sid
                && (if Blank(q.namespace) then m2.namespace else TrimSpace(q.namespace)) == m1.namespace
                && TrimSpace(q.tenantDigest) == TrimSpace(r.tenantDigest)
                && exists token :: Presents(q.authorization, token)
                                   && suite.sha256(token) == ToLower(TrimSpace(r.accessTokenHash)))
            && (resolved.Ok? ==> resolved.value.key == i.key && resolved.value.sid == env.sid)
  {
    var i := Issued(suite, m1, r, env).value;
    IssuedFacts(suite, m1, r, env);
    IssuedExactly(suite, m1, r, env);
    IssuedResolves(suite, m2, q, now, i);
    BlankIsEmpty(q.namespace);
    TenantDigestExactly(q.tenantDigest);
    PresentsHash(suite, q.authorization, i.bound.ath);
  }

  lemma PresentsHash(suite: Suite, authorization: string, hash: string)
    ensures HashAccessToken(suite, authorization) == Ok(hash) <==>
            exists token :: Presents(authorization, token) && suite.sha256(token) == hash
  {
    HashAccessTokenExactly(suite, authorization);
    if !Blank(authorization) {
      var token :| Presents(authorization, token);
    }
  }

  lemma IssuedResolves(suite: Suite, m: Manager, q: Query, now: int, i: Issue)
    requires Lawful(suite) && |i.nonce| == NONCE_BYTES && |i.key| == KEY_BYTES && IsHex(i.bound.ath)
    requires i.bound.exp <= i.bound.iat + HARD_MAX_TTL && i.bound.version == CRYPTO_VERSION
    requires i.secret == m.secret && i.issuer == m.issuer && q.token == TokenOf(suite, i)
    requires i.bound.kid in m.kek.keys ==> m.kek.keys[i.bound.kid] == i.kek
    ensures Resolve(suite, m, q, now)
            == if && now < i.bound.exp + CLOCK_SKEW && q.sid == i.bound.sid
                  && ExpectedNamespace(m, q) == i.bound.namespace
                  && TenantDigest(q.tenantDigest) == Ok(i.bound.digest)
                  && HashAccessToken(suite, q.authorization) == Ok(i.bound.ath)
                  && i.bound.kid in m.kek.keys
               then Ok(Verified(i.bound.sid, i.key, ClaimsOf(suite, i)))
               else Err(SessionInvalid)
  {
    ClaimsRead(suite, i, ClaimsOf(suite, i));
    UnsealIssued(suite, m, i, ClaimsOf(suite, i));
    ResolveIssued(suite, m, q, now, i, ClaimsOf(suite, i));
  }

  // ----- what a resolved token proves -----

  predicate PipeFree(b: Bound) {
    Free('|', BoundParts(b))
  }

  /** Ten fields free of the separator are the only ones with their additional data. */
  lemma AadDetermines(a: Bound, b: Bound)
    requires PipeFree(a) && SessionAad(a) == SessionAad(b)
    ensures a == b
  {
    JoinDetermines(BoundParts(a), BoundParts(b), '|');
    SamePart(a, b);
    DecimalInjective(a.iat, b.iat);
    DecimalInjective(a.exp, b.exp);
  }

  lemma SamePart(a: Bound, b: Bound)
    requires BoundParts(a) == BoundParts(b)
    ensures a.namespace == b.namespace && a.digest == b.digest && a.sid == b.sid && a.sub == b.sub
    ensures a.scope == b.scope && a.version == b.version && a.kid == b.kid && a.ath == b.ath
    ensures Decimal(a.iat) == Decimal(b.iat) && Decimal(a.exp) == Decimal(b.exp)
  {
    var x, y := BoundParts(a), BoundParts(b);
    assert forall i :: 0 <= i < 10 ==> x[i] == y[i];
    assert x[0] == y[0] && x[1] == y[1] && x[2] == y[2] && x[3] == y[3] && x[4] == y[4];
    assert x[5] == y[5] && x[6] == y[6] && x[7] == y[7] && x[8] == y[8] && x[9] == y[9];
  }

  /** The six fields before the two times, and the two after them. */
  function Front(b: Bound): seq<string> {
    [b.namespace, b.digest, b.sid, b.sub, b.scope, b.version]
  }

  function Back(b: Bound): seq<string> {
    [b.kid, b.ath]
  }

  lemma BoundGroups(b: Bound)
    ensures BoundParts(b) == [] + Front(b) + ([Decimal(b.iat), Decimal(b.exp)] + Back(b))
    ensures BoundParts(b) == (Front(b) + [Decimal(b.iat), Decimal(b.exp)]) + Back(b) + []
  {
  }

  lemma PipeFreeGroups(b: Bound)
    ensures PipeFree(b) <==> Free('|', Front(b)) && Free('|', Back(b))
  {
    BoundGroups(b);
    DecimalChars(b.iat);
    DecimalChars(b.exp);
    forall p | p in Front(b) + Back(b) ensures p in BoundParts(b) { }
    forall p | p in BoundParts(b)
      ensures p in Front(b) || p in Back(b) || p == Decimal(b.iat) || p == Decimal(b.exp)
    { }
  }

  lemma FrontTwin(a: Bound) returns (b: Bound)
    requires !Free('|', Front(a))
    ensures b != a && SessionAad(b) == SessionAad(a)
  {
    var other := Twin(Front(a), '|');
    b := a.(namespace := other[0], digest := other[1], sid := other[2],
            sub := other[3], scope := other[4], version := other[5]);
    assert Front(b) == other;
    BoundGroups(a);
    BoundGroups(b);
    JoinMiddle([], Front(a), other, [Decimal(a.iat), Decimal(a.exp)] + Back(a), '|');
  }

  lemma BackTwin(a: Bound) returns (b: Bound)
    requires !Free('|', Back(a))
    ensures b != a && SessionAad(b) == SessionAad(a)
  {
    var other := Twin(Back(a), '|');
    b := a.(kid := other[0], ath := other[1]);
    assert Back(b) == other;
    BoundGroups(a);
    BoundGroups(b);
    JoinMiddle(Front(a) + [Decimal(a.iat), Decimal(a.exp)], Back(a), other, [], '|');
  }

  /** The additional data of ten fields is theirs alone exactly when none of them holds the separator:
      from any other field a bar can move to a neighbour. */
  lemma AadDeterminesExactly(a: Bound)
    ensures (forall b :: SessionAad(b) == SessionAad(a) ==> b == a) <==> PipeFree(a)
  {
    PipeFreeGroups(a);
    if PipeFree(a) {
      forall b | SessionAad(b) == SessionAad(a) ensures b == a {
        AadDetermines(a, b);
      }
    } else if !Free('|', Front(a)) {
      var b := FrontTwin(a);
    } else {
      var b := BackTwin(a);
    }
  }

  /** Such a move: from the front of the scope to the end of the subject. */
  lemma PipesMove(b: Bound, left: string, middle: string, right: string)
    ensures SessionAad(b.(sub := left + "|" + middle, scope := right))
            == SessionAad(b.(sub := left, scope := middle + "|" + right))
    ensures b.(sub := left + "|" + middle, scope := right) != b.(sub := left, scope := middle + "|" + right)
  {
    var c, d := b.(sub := left + "|" + middle, scope := right), b.(sub := left, scope := middle + "|" + right);
    var front, back := [b.namespace, b.digest, b.sid], BoundParts(b)[5..];
    assert BoundParts(c) == front + [left + "|" + middle, right] + back;
    assert BoundParts(d) == front + [left, middle + "|" + right] + back;
    MoveSep(left, middle, right, '|');
    JoinMiddle(front, [left + "|" + middle, right], [left, middle + "|" + right], back, '|');
    assert |c.sub| == |d.sub| + |middle| + 1;
  }

  /** What some handshake issued. */
  ghost predicate FromHandshake(suite: Suite, i: Issue) {
    exists m: Manager, r: HandshakeRequest, env: Env :: 
      ValidManager(m) && |env.nonce| == NONCE_BYTES && Issued(suite, m, r, env) == Ok(i)
  }

  ghost predicate AllFromHandshakes(suite: Suite, history: seq<Issue>) {
    forall k :: 0 <= k < |history| ==> FromHandshake(suite, history[k])
  }

  lemma IssueFacts(suite: Suite, i: Issue)
    requires FromHandshake(suite, i)
    ensures IsHex(i.bound.ath) && |i.bound.ath| == 64 && i.bound.version == CRYPTO_VERSION
    ensures |i.nonce| == NONCE_BYTES && (OpensSealed(suite) ==> |i.key| == KEY_BYTES)
    ensures i.bound.iat < i.bound.exp <= i.bound.iat + HARD_MAX_TTL
  {
  }

  /** An ideal signature: a session token that verifies carries the claims of an issued session. */
  ghost predicate Unforged(suite: Suite, secret: string, history: seq<Issue>) {
    forall token :: suite.verify(secret, token).Some? && "session_envelope" in suite.verify(secret, token).value ==>
      exists k :: 0 <= k < |history| && suite.verify(secret, token).value == ClaimsOf(suite, history[k])
  }

  /** An ideal cipher: what opens under a key of the ring is a key sealed there, with its own
      additional data. */
  ghost predicate Authentic(suite: Suite, ring: KekRing, history: seq<Issue>) {
    forall kid, nonce, sealed, aad :: kid in ring.keys && suite.open(ring.keys[kid], nonce, sealed, aad).Some? ==>
      exists k :: 0 <= k < |history| && history[k].kek == ring.keys[kid] && SessionAad(history[k].bound) == aad
                  && suite.open(ring.keys[kid], nonce, sealed, aad) == Some(history[k].key)
  }

  function OrZero(n: Option<int>): int {
    if n.Some? then n.value else 0
  }

  /** The ten fields a resolved token was checked for. */
  function Presented(suite: Suite, q: Query, v: Verified): Bound {
    BoundOf(suite, v.claims, q.sid, OrZero(ClaimInt(v.claims, "iat")), OrZero(ClaimInt(v.claims, "exp")))
  }

  lemma ResolvedFacts(suite: Suite, m: Manager, q: Query, now: int)
    requires Resolve(suite, m, q, now).Ok?
    ensures var v := Resolve(suite, m, q, now).value;
            var b := Presented(suite, q, v);
            && suite.verify(m.secret, q.token) == Some(v.claims) && "session_envelope" in v.claims
            && ClaimInt(v.claims, "iat").Some? && ClaimInt(v.claims, "exp").Some?
            && now < b.exp + CLOCK_SKEW && b.exp <= b.iat + HARD_MAX_TTL
            && (m.issuer == "" || ("iss" in v.claims && v.claims["iss"] == Words(m.issuer)))
            && v.sid == q.sid && ClaimText(suite, v.claims, "crypto_session_id") == q.sid && b.kid in m.kek.keys
            && (exists nonce, sealed :: suite.open(m.kek.keys[b.kid], nonce, sealed, SessionAad(b)) == Some(v.key))
  {
  }

  /** The envelope holds a nonce of 12 bytes and a text that opens to the key, both encoded canonically. */
  ghost predicate OpensTo(suite: Suite, entries: map<string, string>, kek: Bytes, b: Bound, key: Bytes) {
    exists nonce, sealed ::
      && |nonce| == 12 && |sealed| > 0
      && EnvelopeText(suite, entries, "nonce") == Encode(nonce)
      && EnvelopeText(suite, entries, "ciphertext") == Encode(sealed)
      && suite.open(kek, nonce, sealed, SessionAad(b)) == Some(key)
  }

  lemma UnsealedOpens(suite: Suite, m: Manager, c: Claims, b: Bound, entries: map<string, string>)
    requires Unseal(suite, m, c, b, entries).Ok?
    ensures b.kid in m.kek.keys
    ensures OpensTo(suite, entries, m.kek.keys[b.kid], b, Unseal(suite, m, c, b, entries).value.key)
  {
    var nonce := CanonicalDecode(EnvelopeText(suite, entries, "nonce")).value;
    var sealed := CanonicalDecode(EnvelopeText(suite, entries, "ciphertext")).value;
    CanonicalIsExact(EnvelopeText(suite, entries, "nonce"), nonce);
    CanonicalIsExact(EnvelopeText(suite, entries, "ciphertext"), sealed);
  }

  /** What every resolved token has gone through, whoever made it: its claims are signed, meant for crypto
      sessions and this issuer, begun and not expired but for five seconds, no longer than 300 seconds, and name
      the caller's session, namespace, tenant and bearer token. */
  lemma ResolveDemands(suite: Suite, m: Manager, q: Query, now: int)
    requires Resolve(suite, m, q, now).Ok?
    ensures var v := Resolve(suite, m, q, now).value;
            var c, b := v.claims, Presented(suite, q, v);
            && suite.verify(m.secret, q.token) == Some(c) && v.sid == q.sid && |v.key| == 32
            && "aud" in c && c["aud"] == Words("crypto-session")
            && (m.issuer != "" ==> "iss" in c && c["iss"] == Words(m.issuer))
            && ("nbf" in c ==> c["nbf"].Number? && c["nbf"].n <= now + 5)
            && "iat" in c && c["iat"] == Number(b.iat) && "exp" in c && c["exp"] == Number(b.exp)
            && now < b.exp + 5 && b.exp <= b.iat + 300
            && ClaimText(suite, c, "crypto_session_id") == q.sid && b.version == "v1"
            && b.namespace == (if Blank(q.namespace) then m.namespace else TrimSpace(q.namespace))
            && b.digest == TrimSpace(q.tenantDigest) && |b.digest| >= 16 && b.kid in m.kek.keys
            && "session_envelope" in c && c["session_envelope"].Dict?
            && OpensTo(suite, c["session_envelope"].entries, m.kek.keys[b.kid], b, v.key)
            && exists token :: Presents(q.authorization, token) && suite.sha256(token) == b.ath
  {
    BlankIsEmpty(q.namespace);
    TenantDigestExactly(q.tenantDigest);
    var v := Resolve(suite, m, q, now).value;
    UnsealedOpens(suite, m, v.claims, Presented(suite, q, v), v.claims["session_envelope"].entries);
    PresentsHash(suite, q.authorization, Presented(suite, q, Resolve(suite, m, q, now).value).ath);
  }

  /** With an ideal signature alone, and whatever the fields hold: a token resolves only if one issued
      session has the same ten fields, in time, and under the sealing key it yields the sealed key. */
  lemma SignatureBinds(suite: Suite, m: Manager, q: Query, now: int, history: seq<Issue>)
    requires OpensSealed(suite)
    requires AllFromHandshakes(suite, history) && Unforged(suite, m.secret, history)
    requires Resolve(suite, m, q, now).Ok?
    ensures var v := Resolve(suite, m, q, now).value;
            exists k :: 0 <= k < |history| && history[k].bound == Presented(suite, q, v)
                        && now < history[k].bound.iat + HARD_MAX_TTL + CLOCK_SKEW
                        && history[k].bound.kid in m.kek.keys
                        && (history[k].kek == m.kek.keys[history[k].bound.kid] ==> v.key == history[k].key)
  {
    ResolvedFacts(suite, m, q, now);
    var v := Resolve(suite, m, q, now).value;
    var k :| 0 <= k < |history| && v.claims == ClaimsOf(suite, history[k]);
    IssueFacts(suite, history[k]);
    ClaimsRead(suite, history[k], v.claims);
    assert history[k].bound == Presented(suite, q, v);
    if history[k].kek == m.kek.keys[history[k].bound.kid] {
      YieldsItsKey(suite, m, q, now, history[k]);
    }
  }

  lemma YieldsItsKey(suite: Suite, m: Manager, q: Query, now: int, i: Issue)
    requires OpensSealed(suite) && Resolve(suite, m, q, now).Ok? && FromHandshake(suite, i)
    requires i.bound == Presented(suite, q, Resolve(suite, m, q, now).value)
    requires Reads(suite, Resolve(suite, m, q, now).value.claims, i)
    requires i.bound.kid in m.kek.keys && m.kek.keys[i.bound.kid] == i.kek
    ensures Resolve(suite, m, q, now).value.key == i.key
  {
    var c := Resolve(suite, m, q, now).value.claims;
    ResolvedFacts(suite, m, q, now);
    IssueFacts(suite, i);
    UnsealIssued(suite, m, i, c);
    ResolveIssued(suite, m, q, now, i, c);
  }

  lemma OpenedIsIssued(suite: Suite, ring: KekRing, history: seq<Issue>, b: Bound, key: Bytes)
    requires Authentic(suite, ring, history) && PipeFree(b) && b.kid in ring.keys
    requires exists nonce, sealed :: suite.open(ring.keys[b.kid], nonce, sealed, SessionAad(b)) == Some(key)
    ensures exists k :: 0 <= k < |history| && history[k].bound == b && history[k].key == key
                        && history[k].kek == ring.keys[b.kid]
  {
    var kek := ring.keys[b.kid];
    var nonce, sealed :| suite.open(kek, nonce, sealed, SessionAad(b)) == Some(key);
    var k :| 0 <= k < |history| && history[k].kek == kek && SessionAad(history[k].bound) == SessionAad(b)
             && suite.open(kek, nonce, sealed, SessionAad(b)) == Some(history[k].key);
    AadDetermines(b, history[k].bound);
  }

  /** With an ideal cipher alone, even if signatures can be forged: when the fields presented are free of
      the separator, whatever was issued, a token resolves only if one issued session has the same ten
      fields, to exactly the key sealed there, and less than 305 seconds after it was issued. */
  lemma CipherBinds(suite: Suite, m: Manager, q: Query, now: int, history: seq<Issue>)
    requires AllFromHandshakes(suite, history) && Authentic(suite, m.kek, history)
    requires Resolve(suite, m, q, now).Ok?
    requires PipeFree(Presented(suite, q, Resolve(suite, m, q, now).value))
    ensures var v := Resolve(suite, m, q, now).value;
            exists k :: 0 <= k < |history| && history[k].bound == Presented(suite, q, v) && history[k].key == v.key
                        && history[k].kek == m.kek.keys[history[k].bound.kid]
                        && now < history[k].bound.iat + HARD_MAX_TTL + CLOCK_SKEW
  {
    ResolvedFacts(suite, m, q, now);
    var v := Resolve(suite, m, q, now).value;
    OpenedIsIssued(suite, m.kek, history, Presented(suite, q, v), v.key);
  }

  // ----- the bearer token of a session -----

  /** Hashes are 64 lower-case hexadecimal digits. */
  ghost predicate HexHashes(suite: Suite) {
    forall s :: |suite.sha256(s)| == 64 && IsHex(suite.sha256(s))
  }

  /** Some handshake of a caller that presented `token` issued the session. */
  ghost predicate IssuedTo(suite: Suite, i: Issue, token: string) {
    exists m: Manager, r: HandshakeRequest, env: Env ::
      ValidManager(m) && r.accessTokenHash == suite.sha256(token) && Issued(suite, m, r, env) == Ok(i)
  }

  lemma {:induction false} HexIsTrimmed(s: string)
    requires IsHex(s)
    ensures TrimSpace(s) == s
  {
    assert |s| > 0 ==> s[0] in s && s[|s| - 1] in s;
    TrimmedStays(s);
  }

  lemma IssuedToHash(suite: Suite, i: Issue, token: string)
    requires HexHashes(suite) && IssuedTo(suite, i, token)
    ensures i.bound.ath == suite.sha256(token)
  {
    var m: Manager, r: HandshakeRequest, env: Env :|
      ValidManager(m) && r.accessTokenHash == suite.sha256(token) && Issued(suite, m, r, env) == Ok(i);
    IssuedExactly(suite, m, r, env);
    HexIsTrimmed(suite.sha256(token));
    HexIsLower(suite.sha256(token));
  }

  /** A token that resolves with the ten fields of an issued session was presented together with the very bearer
      token the session was issued to, unless the hash collides on two tokens. */
  lemma BoundToItsToken(suite: Suite, m: Manager, q: Query, now: int, i: Issue, token: string)
    requires Resolve(suite, m, q, now).Ok? && i.bound == Presented(suite, q, Resolve(suite, m, q, now).value)
    requires HexHashes(suite) && IssuedTo(suite, i, token)
    requires forall other :: Presents(q.authorization, other) && suite.sha256(other) == suite.sha256(token)
                             ==> other == token
    ensures Presents(q.authorization, token)
  {
    IssuedToHash(suite, i, token);
    ResolveDemands(suite, m, q, now);
  }

  /** So with an ideal signature, or with an ideal cipher and separator-free fields: whoever resolves a token
      presents the bearer token of its session. */
  lemma BearerBinds(suite: Suite, m: Manager, q: Query, now: int, history: seq<Issue>, tokens: seq<string>)
    requires OpensSealed(suite) && HexHashes(suite) && Resolve(suite, m, q, now).Ok?
    requires AllFromHandshakes(suite, history) && |tokens| == |history|
    requires forall k :: 0 <= k < |history| ==> IssuedTo(suite, history[k], tokens[k])
    requires forall k, other ::
               0 <= k < |tokens| && Presents(q.authorization, other) && suite.sha256(other) == suite.sha256(tokens[k])
               ==> other == tokens[k]
    requires || Unforged(suite, m.secret, history)
             || (Authentic(suite, m.kek, history) && PipeFree(Presented(suite, q, Resolve(suite, m, q, now).value)))
    ensures exists k :: 0 <= k < |history| && history[k].bound == Presented(suite, q, Resolve(suite, m, q, now).value)
                        && Presents(q.authorization, tokens[k])
  {
    if Unforged(suite, m.secret, history) {
      SignatureBinds(suite, m, q, now, history);
    } else {
      CipherBinds(suite, m, q, now, history);
    }
    var k :| 0 <= k < |history| && history[k].bound == Presented(suite, q, Resolve(suite, m, q, now).value);
    BoundToItsToken(suite, m, q, now, history[k], tokens[k]);
  }
}
