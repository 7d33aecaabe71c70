/** lib/request.js: a request that is signed with a shared-secret token and
    later verified. The ordinary query parameters and the reserved `auth_*`
    parameters are kept apart; the signature covers the method, the path and
    the ordinary parameters; verification checks the version, the freshness
    of the timestamp and the signature, in that order. */
module Requests {
  import opened Wrappers
  import opened JsText

  /** A value held in the auth block. Query parameters arrive as text;
      `sign` stores the clock reading as a number. */
  datatype Value = Text(text: string) | Number(number: int)

  /** JavaScript truthiness of a looked-up entry: a missing entry, the empty
      string and the number 0 are falsy. */
  predicate Truthy(v: Option<Value>) {
    match v
    case None => false
    case Some(Text(s)) => s != ""
    case Some(Number(n)) => n != 0
  }

  /** The text a stored value is compared through when the source compares
      it with a string (`version != '1.0'`, `auth_signature != _signature`). */
  function AsText(v: Value): string {
    match v
    case Text(s) => s
    case Number(n) => DecimalText(n)
  }

  /** `parseInt(timestamp)`: a number is read as itself, text through the
      JavaScript parser; `None` is NaN. */
  function TimestampOf(v: Value): Option<int> {
    match v
    case Text(s) => ParseInt(s)
    case Number(n) => Some(n)
  }

  function Abs(x: int): int { if x < 0 then -x else x }

  /** The caller's credential: a public key identifier and the shared secret. */
  datatype Token = Token(key: string, secret: string)

  /** The failures the source throws, one constructor per thrown message. */
  datatype Error =
    | NotSigned
    | VersionRequired
    | VersionNotSupported
    | TimestampRequired
    | TimestampExpired(timestamp: Value, serverTime: int)
    | InvalidSignature(expected: string, sent: Option<Value>)
    | KeyRequired
    | InvalidKey

  /** A check that returns `true` or throws. */
  datatype Outcome = Pass | Fail(error: Error)

  /** A computation that returns a value or throws. */
  datatype Result<+T> = Ok(value: T) | Err(error: Error)

  /** The `timestamp_grace` argument as JavaScript sees it: left out
      (`undefined`), `null`, or a number. */
  datatype Grace = Omitted | Null | Given(n: int)

  /** The collaborators the file calls but does not define: the HMAC-SHA256
      hex digest keyed by a secret, and the canonical serialisation of the
      ordinary parameters (`parameter_string`). */
  datatype Externals = Externals(
    hmac: (string, string) -> string,
    parameterString: map<string, string> -> string)

  type AuthMap = map<string, Value>

  /** The fields a request object holds: `method`, `path`, `query_hash` and
      the slot `_auth_hash` behind the guarded `auth_hash` accessor. */
  datatype RequestState = RequestState(
    httpMethod: string,
    path: string,
    queryHash: map<string, string>,
    authHash: AuthMap)

  /** The two maps the constructor fills. */
  datatype Split = Split(query: map<string, string>, auth: AuthMap)

  const AuthPrefix: string := "auth_"
  const SupportedVersion: string := "1.0"
  const DefaultGrace: int := 600

  /** `k.substring(0,5) == 'auth_'`. */
  predicate IsAuthKey(k: string) {
    |k| >= |AuthPrefix| && k[..|AuthPrefix|] == AuthPrefix
  }

  function Lookup(m: AuthMap, k: string): Option<Value> {
    if k in m then Some(m[k]) else None
  }

  // ---------------------------------------------------------------------
  // Construction

  /** The lower-cased keys of the raw query parameters. */
  function LoweredKeys(query: seq<(string, string)>): set<string> {
    set i | 0 <= i < |query| :: Lower(query[i].0)
  }

  lemma LoweredKeysSnoc(query: seq<(string, string)>)
    requires query != []
    ensures LoweredKeys(query)
         == LoweredKeys(query[..|query| - 1]) + {Lower(query[|query| - 1].0)}
  {
    var front := query[..|query| - 1];
    forall k | k in LoweredKeys(query)
      ensures k in LoweredKeys(front) + {Lower(query[|query| - 1].0)}
    {
      var i :| 0 <= i < |query| && Lower(query[i].0) == k;
      if i < |query| - 1 {
        assert front[i] == query[i];
      }
    }
    forall k | k in LoweredKeys(front)
      ensures k in LoweredKeys(query)
    {
      var i :| 0 <= i < |front| && Lower(front[i].0) == k;
      assert query[i] == front[i];
    }
  }

  /** One step of the constructor's loop: lower-case the key and store the
      pair in the auth map when it starts with `auth_`, in the query map
      otherwise, overwriting any earlier value. */
  function Route(s: Split, pair: (string, string)): (r: Split)
    ensures IsAuthKey(Lower(pair.0)) ==>
      Lower(pair.0) in r.auth && r.auth[Lower(pair.0)] == Text(pair.1) && r.query == s.query
    ensures !IsAuthKey(Lower(pair.0)) ==>
      Lower(pair.0) in r.query && r.query[Lower(pair.0)] == pair.1 && r.auth == s.auth
    ensures forall k' :: k' != Lower(pair.0) ==>
      && (k' in r.auth <==> k' in s.auth) && (k' in s.auth ==> r.auth[k'] == s.auth[k'])
      && (k' in r.query <==> k' in s.query) && (k' in s.query ==> r.query[k'] == s.query[k'])
  {
    var k := Lower(pair.0);
    if IsAuthKey(k) then s.(auth := s.auth[k := Text(pair.1)])
    else s.(query := s.query[k := pair.1])
  }

  /** What the constructor's loop computes from the parameters in the order
      `for…in` visits them. The auth map holds only prefixed keys, with
      text values, and the query map none. */
  function Partition(query: seq<(string, string)>): (s: Split)
    ensures forall k :: k in s.auth ==> IsAuthKey(k) && s.auth[k].Text?
    ensures forall k :: k in s.query ==> !IsAuthKey(k)
    decreases |query|
  {
    if query == [] then Split(map[], map[])
    else Route(Partition(query[..|query| - 1]), query[|query| - 1])
  }

  /** Every stored key comes from the input, and every input key is stored. */
  lemma {:induction false} PartitionKeys(query: seq<(string, string)>)
    ensures Partition(query).query.Keys + Partition(query).auth.Keys == LoweredKeys(query)
    decreases |query|
  {
    if query != [] {
      LoweredKeysSnoc(query);
      PartitionKeys(query[..|query| - 1]);
    }
  }

  /** The state `new Request(method, path, query)` produces. */
  function Construct(httpMethod: string, path: string, query: seq<(string, string)>): RequestState {
    var s := Partition(query);
    RequestState(Upper(httpMethod), path, s.query, s.auth)
  }

  // ---------------------------------------------------------------------
  // The guarded accessor, the string to sign and the signature

  /** The `auth_hash` getter: the auth block is readable only once it holds
      a truthy `auth_signature`; otherwise "Request not signed". */
  function AuthHash(r: RequestState): (a: Result<AuthMap>)
    ensures a.Ok? <==> "auth_signature" in r.authHash && Truthy(Some(r.authHash["auth_signature"]))
    ensures a.Ok? ==> a.value == r.authHash
    ensures a.Err? ==> a.error == NotSigned
  {
    if Truthy(Lookup(r.authHash, "auth_signature")) then Ok(r.authHash) else Err(NotSigned)
  }

  predicate Signed(r: RequestState) {
    AuthHash(r).Ok?
  }

  /** The method, the path and the canonical ordinary parameters, joined by
      single newlines: the method opens the string and is followed by a
      newline, the path follows that and is followed by a newline, and the
      parameter string is the rest. */
  function StringToSign(r: RequestState, ext: Externals): (s: string)
    ensures var m, p := |r.httpMethod|, |r.path|;
      && |s| == m + p + 2 + |ext.parameterString(r.queryHash)|
      && s[..m] == r.httpMethod && s[m] == '\n'
      && s[m + 1..m + 1 + p] == r.path && s[m + 1 + p] == '\n'
      && s[m + p + 2..] == ext.parameterString(r.queryHash)
  {
    r.httpMethod + "\n" + r.path + "\n" + ext.parameterString(r.queryHash)
  }

  /** The hex HMAC of the string to sign under the token's secret. It reads
      only the method, the path and the ordinary parameters: any request
      that agrees on those has the same string to sign. */
  function Signature(r: RequestState, token: Token, ext: Externals): (sig: string)
    ensures forall r': RequestState ::
      r'.httpMethod == r.httpMethod && r'.path == r.path && r'.queryHash == r.queryHash
      ==> sig == ext.hmac(token.secret, StringToSign(r', ext))
  {
    ext.hmac(token.secret, StringToSign(r, ext))
  }

  /** The complete block `sign` installs: exactly the four reserved entries. */
  function NewAuthBlock(r: RequestState, token: Token, now: int, ext: Externals): (a: AuthMap)
    ensures a.Keys == {"auth_version", "auth_key", "auth_timestamp", "auth_signature"}
  {
    map[
      "auth_version" := Text(SupportedVersion),
      "auth_key" := Text(token.key),
      "auth_timestamp" := Number(now),
      "auth_signature" := Text(Signature(r, token, ext))]
  }

  // ---------------------------------------------------------------------
  // The request object

  /** A request object. The constructor and `sign` change its fields; every
      other operation reads `State()`. */
  class Request {
    var httpMethod: string
    var path: string
    var queryHash: map<string, string>
    /** The slot behind the guarded `auth_hash` accessor. */
    var authHashRaw: AuthMap

    function State(): RequestState
      reads this
    {
      RequestState(httpMethod, path, queryHash, authHashRaw)
    }

    /** `new Request(method, path, query)`, with `query` given as the pairs
        in the order `for…in` visits them. */
    constructor (httpMethod: string, path: string, query: seq<(string, string)>)
      ensures State() == Construct(httpMethod, path, query)
    {
      var queryHash: map<string, string> := map[];
      var authHash: AuthMap := map[];
      var i := 0;
      while i < |query|
        invariant 0 <= i <= |query|
        invariant Partition(query[..i]) == Split(queryHash, authHash)
      {
        var k := Lower(query[i].0);
        assert Partition(query[..i + 1]) == Route(Partition(query[..i]), query[i]) by {
          assert query[..i + 1][..i] == query[..i];
        }
        if IsAuthKey(k) {
          authHash := authHash[k := Text(query[i].1)];
        } else {
          queryHash := queryHash[k := query[i].1];
        }
        i := i + 1;
      }
      assert query[..|query|] == query;
      this.httpMethod := Upper(httpMethod);
      this.path := path;
      this.queryHash := queryHash;
      this.authHashRaw := authHash;
    }

    /** The `auth_hash` setter: replaces the slot and nothing else. */
    method SetAuthHash(val: AuthMap)
      modifies this
      ensures State() == old(State()).(authHash := val)
    {
      authHashRaw := val;
    }

    /** `sign(token)` at clock reading `now`: builds the whole new block
        (version, key, timestamp, signature), installs it in one step, and
        returns it through the guarded accessor. Earlier auth entries are
        gone; method, path and ordinary parameters are untouched. */
    method Sign(token: Token, now: int, ext: Externals) returns (block: Result<AuthMap>)
      modifies this
      ensures State() == old(State()).(authHash := NewAuthBlock(old(State()), token, now, ext))
      ensures block.Ok? <==> Signature(old(State()), token, ext) != ""
      ensures block.Ok? ==> block.value == authHashRaw
    {
      var signature := Signature(State(), token, ext);
      var newBlock := map[
        "auth_version" := Text(SupportedVersion),
        "auth_key" := Text(token.key),
        "auth_timestamp" := Number(now),
        "auth_signature" := Text(signature)];
      SetAuthHash(newBlock);
      block := AuthHash(State());
    }
  }

  // ---------------------------------------------------------------------
  // The three checks

  /** `validate_version`: passes exactly when the request is signed and its
      version reads "1.0"; "Version required" when it is missing or empty. */
  function ValidateVersion(r: RequestState): (o: Outcome)
    ensures o.Pass? <==> Signed(r) && "auth_version" in r.authHash
                         && AsText(r.authHash["auth_version"]) == SupportedVersion
    ensures o == Fail(VersionRequired) <==> Signed(r) && !Truthy(Lookup(r.authHash, "auth_version"))
    ensures o == Fail(VersionNotSupported) <==>
      Signed(r) && Truthy(Lookup(r.authHash, "auth_version"))
      && AsText(r.authHash["auth_version"]) != SupportedVersion
    ensures o == Fail(NotSigned) <==> !Signed(r)
  {
    match AuthHash(r)
    case Err(e) => Fail(e)
    case Ok(a) =>
      var version := Lookup(a, "auth_version");
      if !Truthy(version) then Fail(VersionRequired)
      else if AsText(version.value) != SupportedVersion then Fail(VersionNotSupported)
      else Pass
  }

  /** `validate_timestamp(grace)`: with no grace it always passes; otherwise
      it passes exactly when the request is signed and carries a truthy,
      numeric timestamp strictly less than `grace` away from `now`. A
      timestamp that is not a number fails as missing (see Findings in the
      README for what the code as written does). */
  function ValidateTimestamp(r: RequestState, grace: Option<int>, now: int): (o: Outcome)
    ensures grace.None? ==> o.Pass?
    ensures grace.Some? ==>
      (o.Pass? <==> Signed(r) && Truthy(Lookup(r.authHash, "auth_timestamp"))
                    && TimestampOf(r.authHash["auth_timestamp"]).Some?
                    && Abs(TimestampOf(r.authHash["auth_timestamp"]).value - now) < grace.value)
    ensures grace.Some? && !Signed(r) ==> o == Fail(NotSigned)
    ensures grace.Some? && Signed(r) && !Truthy(Lookup(r.authHash, "auth_timestamp"))
            ==> o == Fail(TimestampRequired)
    ensures grace.Some? && Signed(r) && Truthy(Lookup(r.authHash, "auth_timestamp"))
            && TimestampOf(r.authHash["auth_timestamp"]).Some?
            && Abs(TimestampOf(r.authHash["auth_timestamp"]).value - now) >= grace.value
            ==> o == Fail(TimestampExpired(r.authHash["auth_timestamp"], now))
    ensures grace.Some? && Signed(r) && Truthy(Lookup(r.authHash, "auth_timestamp"))
            && TimestampOf(r.authHash["auth_timestamp"]).None?
            ==> o == Fail(TimestampRequired)
  {
    if grace.None? then Pass
    else
      match AuthHash(r)
      case Err(e) => Fail(e)
      case Ok(a) =>
        var timestamp := Lookup(a, "auth_timestamp");
        if !Truthy(timestamp) then Fail(TimestampRequired)
        else
          match TimestampOf(timestamp.value)
          case None => Fail(TimestampRequired)
          case Some(t) =>
            if Abs(t - now) >= grace.value then Fail(TimestampExpired(timestamp.value, now))
            else Pass
  }

  /** `validate_signature(token)`: passes exactly when the request is signed
      and its stored signature equals the one recomputed with the token. */
  function ValidateSignature(r: RequestState, token: Token, ext: Externals): (o: Outcome)
    ensures o.Pass? <==> Signed(r) && AsText(r.authHash["auth_signature"]) == Signature(r, token, ext)
    ensures !Signed(r) ==> o == Fail(NotSigned)
    ensures o.Fail? && Signed(r) ==> o.error.InvalidSignature?
  {
    var expected := Signature(r, token, ext);
    match AuthHash(r)
    case Err(e) => Fail(e)
    case Ok(a) =>
      var sent := Lookup(a, "auth_signature");
      if sent.None? || AsText(sent.value) != expected then Fail(InvalidSignature(expected, sent))
      else Pass
  }

  // ---------------------------------------------------------------------
  // Entry points

  /** What the three checks accept, read directly off the stored entries. */
  predicate Accepted(r: RequestState, token: Token, grace: Option<int>, now: int, ext: Externals) {
    var a := r.authHash;
    && "auth_signature" in a && Truthy(Some(a["auth_signature"]))
    && AsText(a["auth_signature"]) == Signature(r, token, ext)
    && "auth_version" in a && AsText(a["auth_version"]) == SupportedVersion
    && (grace.Some? ==>
          && "auth_timestamp" in a && Truthy(Some(a["auth_timestamp"]))
          && TimestampOf(a["auth_timestamp"]).Some?
          && Abs(TimestampOf(a["auth_timestamp"]).value - now) < grace.value)
  }

  /** The default parameter `timestamp_grace = 600`: it replaces only an
      omitted argument; `null` stays null and switches the window off. */
  function DefaultParameter(grace: Grace): (g: Option<int>)
    ensures g.None? <==> grace.Null?
    ensures grace.Omitted? ==> g == Some(DefaultGrace)
    ensures grace.Given? ==> g == Some(grace.n)
  {
    match grace
    case Omitted => Some(DefaultGrace)
    case Null => None
    case Given(n) => Some(n)
  }

  /** `timestamp_grace || 600`: every falsy argument becomes 600. */
  function GraceOrDefault(grace: Grace): (g: int)
    ensures g != 0
    ensures grace.Given? && grace.n != 0 ==> g == grace.n
    ensures !(grace.Given? && grace.n != 0) ==> g == DefaultGrace
  {
    match grace
    case Given(n) => if n != 0 then n else DefaultGrace
    case _ => DefaultGrace
  }

  /** `authenticate_by_token_with_exceptions(token, grace)`: version, then
      timestamp, then signature; the first failure is the result. */
  function AuthenticateByTokenWithExceptions(
    r: RequestState, token: Token, grace: Grace, now: int, ext: Externals): (o: Outcome)
    ensures o.Pass? <==> Accepted(r, token, DefaultParameter(grace), now, ext)
    ensures !Signed(r) ==> o == Fail(NotSigned)
    ensures ValidateVersion(r).Fail? ==> o == ValidateVersion(r)
    ensures ValidateVersion(r).Pass? && ValidateTimestamp(r, DefaultParameter(grace), now).Fail?
            ==> o == ValidateTimestamp(r, DefaultParameter(grace), now)
    ensures ValidateVersion(r).Pass? && ValidateTimestamp(r, DefaultParameter(grace), now).Pass?
            ==> o == ValidateSignature(r, token, ext)
  {
    var version := ValidateVersion(r);
    if version.Fail? then version
    else
      var timestamp := ValidateTimestamp(r, DefaultParameter(grace), now);
      if timestamp.Fail? then timestamp
      else ValidateSignature(r, token, ext)
  }

  /** `authenticate_by_token(token, grace)`: the same pipeline with a falsy
      grace replaced by 600, the failure reduced to `false`. */
  function AuthenticateByToken(
    r: RequestState, token: Token, grace: Grace, now: int, ext: Externals): (b: bool)
    ensures b <==> Accepted(r, token, Some(GraceOrDefault(grace)), now, ext)
  {
    AuthenticateByTokenWithExceptions(r, token, Given(GraceOrDefault(grace)), now, ext).Pass?
  }

  /** `authenticate(grace, block)`: reads `auth_key`, asks the resolver for
      its token, and runs the pipeline with that token; the result is the
      token. */
  function Authenticate(
    r: RequestState, grace: Grace, resolver: Value -> Option<Token>, now: int, ext: Externals)
    : (res: Result<Token>)
    ensures !Signed(r) ==> res == Err(NotSigned)
    ensures Signed(r) && !Truthy(Lookup(r.authHash, "auth_key")) ==> res == Err(KeyRequired)
    ensures Signed(r) && Truthy(Lookup(r.authHash, "auth_key"))
            && (resolver(r.authHash["auth_key"]).None? || resolver(r.authHash["auth_key"]).value.secret == "")
            ==> res == Err(InvalidKey)
    ensures res.Ok? <==>
      && Truthy(Lookup(r.authHash, "auth_key"))
      && resolver(r.authHash["auth_key"]).Some?
      && resolver(r.authHash["auth_key"]).value.secret != ""
      && Accepted(r, resolver(r.authHash["auth_key"]).value, Some(GraceOrDefault(grace)), now, ext)
    ensures res.Ok? ==> resolver(r.authHash["auth_key"]) == Some(res.value)
    ensures Signed(r) && Truthy(Lookup(r.authHash, "auth_key"))
            && resolver(r.authHash["auth_key"]).Some? && resolver(r.authHash["auth_key"]).value.secret != ""
            && res.Err?
            ==> AuthenticateByTokenWithExceptions(
                  r, resolver(r.authHash["auth_key"]).value, Given(GraceOrDefault(grace)), now, ext)
                == Fail(res.error)
  {
    var g := GraceOrDefault(grace);
    match AuthHash(r)
    case Err(e) => Err(e)
    case Ok(a) =>
      var key := Lookup(a, "auth_key");
      if !Truthy(key) then Err(KeyRequired)
      else
        var token := resolver(key.value);
        if token.None? || token.value.secret == "" then Err(InvalidKey)
        else
          match AuthenticateByTokenWithExceptions(r, token.value, Given(g), now, ext)
          case Fail(e) => Err(e)
          case Pass => Ok(token.value)
  }
}
