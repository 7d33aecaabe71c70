/** Three places where lib/request.js, read literally, does not do what it
    evidently means to. Each function here follows the code as written; each
    lemma sets it beside the intended behaviour that the Requests module
    models. */
module AsWritten {
  import opened Wrappers
  import opened JsText
  import opened Requests
  import opened RequestProperties

  /** What a literal run throws: one of the source's own failures, or a
      `ReferenceError` for a name that is not in scope. */
  datatype Thrown = Threw(error: Error) | ReferenceError(name: string)

  // ---------------------------------------------------------------------
  // 1. `sign` writes the signature through the guarded getter

  /** `sign` as written: the setter installs the three-entry block, then
      `this.auth_hash['auth_signature'] = …` reads the getter, which throws
      because that block has no signature yet. The request is left with a
      block it cannot read. */
  function SignAsWritten(r: RequestState, token: Token, now: int): (res: (RequestState, Thrown))
    ensures res.1 == Threw(NotSigned)
    ensures res.0.httpMethod == r.httpMethod && res.0.path == r.path && res.0.queryHash == r.queryHash
    ensures "auth_signature" !in res.0.authHash && !Signed(res.0)
    ensures forall ext :: res.0.authHash == NewAuthBlock(r, token, now, ext) - {"auth_signature"}
  {
    var partial := map[
      "auth_version" := Text(SupportedVersion),
      "auth_key" := Text(token.key),
      "auth_timestamp" := Number(now)];
    var r' := r.(authHash := partial);
    (r', Threw(AuthHash(r').error))
  }

  /** After the literal `sign`, every check fails with "Request not signed",
      whereas the intended `sign` leaves a request that verifies. */
  lemma SignAsWrittenNeverVerifies(r: RequestState, token: Token, grace: Grace, now: int, ext: Externals)
    requires Signature(r, token, ext) != "" && now != 0 && !grace.Null?
    requires grace.Omitted? || (grace.Given? && grace.n > 0)
    ensures AuthenticateByTokenWithExceptions(SignAsWritten(r, token, now).0, token, grace, now, ext) == Fail(NotSigned)
    ensures AuthenticateByTokenWithExceptions(SignedAt(r, token, now, ext), token, grace, now, ext) == Pass
  {
    SignThenVerify(r, token, grace, now, ext);
  }

  // ---------------------------------------------------------------------
  // 2. The validators are called without `this.`

  /** `authenticate_by_token_with_exceptions` as written: its first line
      calls `validate_version()` as a free name, which is not defined. */
  function AuthenticateByTokenWithExceptionsAsWritten(
    r: RequestState, token: Token, grace: Grace, now: int, ext: Externals): (t: Thrown)
    ensures t.ReferenceError?
  {
    ReferenceError("validate_version")
  }

  /** `authenticate_by_token` as written: the free call to
      `authenticate_by_token_with_exceptions` throws, and the catch turns
      that into `false`, for every request. */
  function AuthenticateByTokenAsWritten(
    r: RequestState, token: Token, grace: Grace, now: int, ext: Externals): (b: bool)
    ensures !b
  {
    false
  }

  /** `authenticate` as written: the key and the resolver are checked as
      intended, then the free call to the pipeline throws, so no token is
      ever returned. */
  function AuthenticateAsWritten(
    r: RequestState, grace: Grace, resolver: Value -> Option<Token>, now: int, ext: Externals)
    : (t: Thrown)
    ensures t.ReferenceError? <==>
      Signed(r) && Truthy(Lookup(r.authHash, "auth_key"))
      && resolver(r.authHash["auth_key"]).Some? && resolver(r.authHash["auth_key"]).value.secret != ""
  {
    match AuthHash(r)
    case Err(e) => Threw(e)
    case Ok(a) =>
      var key := Lookup(a, "auth_key");
      if !Truthy(key) then Threw(KeyRequired)
      else
        var token := resolver(key.value);
        if token.None? || token.value.secret == "" then Threw(InvalidKey)
        else ReferenceError("authenticate_by_token_with_exceptions")
  }

  /** A freshly signed request with a resolver that knows its token: the
      intended entry points accept it, the literal ones never do. */
  lemma UnqualifiedCallsRejectSignedRequest(
    r: RequestState, token: Token, resolver: Value -> Option<Token>, now: int, ext: Externals)
    requires Signature(r, token, ext) != "" && now != 0
    requires token.key != "" && token.secret != "" && resolver(Text(token.key)) == Some(token)
    ensures AuthenticateByToken(SignedAt(r, token, now, ext), token, Omitted, now, ext)
    ensures !AuthenticateByTokenAsWritten(SignedAt(r, token, now, ext), token, Omitted, now, ext)
    ensures Authenticate(SignedAt(r, token, now, ext), Omitted, resolver, now, ext) == Ok(token)
    ensures AuthenticateAsWritten(SignedAt(r, token, now, ext), Omitted, resolver, now, ext).ReferenceError?
  {
    SignThenAuthenticateByToken(r, token, Omitted, now, ext);
    SignThenAuthenticate(r, token, Omitted, resolver, now, ext);
  }

  // ---------------------------------------------------------------------
  // 3. A timestamp that is not a number passes the window

  /** `validate_timestamp` as written: `parseInt` of a non-numeric
      timestamp is NaN, `Math.abs(NaN - now)` is NaN, and `NaN >= grace` is
      false, so the check passes. */
  function ValidateTimestampAsWritten(r: RequestState, grace: Option<int>, now: int): (o: Outcome)
    ensures (grace.Some? && Signed(r) && Truthy(Lookup(r.authHash, "auth_timestamp"))
             && TimestampOf(r.authHash["auth_timestamp"]).None?) ==> o.Pass?
  {
    if grace.None? then Pass
    else
      match AuthHash(r)
      case Err(e) => Fail(e)
      case Ok(a) =>
        var timestamp := Lookup(a, "auth_timestamp");
        if !Truthy(timestamp) then Fail(TimestampRequired)
        else
          match TimestampOf(timestamp.value)
          case None => Pass
          case Some(t) =>
            if Abs(t - now) >= grace.value then Fail(TimestampExpired(timestamp.value, now))
            else Pass
  }

  /** The timestamp "soon" on a signed request: the literal check lets it
      through at any clock reading, the intended one reports it missing. */
  lemma NonNumericTimestampPasses(now: int)
    ensures var r := RequestState("GET", "/widgets", map[],
                                  map["auth_signature" := Text("0f"), "auth_timestamp" := Text("soon")]);
      && ValidateTimestampAsWritten(r, Some(DefaultGrace), now) == Pass
      && ValidateTimestamp(r, Some(DefaultGrace), now) == Fail(TimestampRequired)
  {
    var s := "soon";
    assert !IsSpace(s[0]) && TrimStart(s) == s;
    assert DigitValue(s[0]) >= 10 && DigitPrefixLength(s, 10) == 0;
  }
}
