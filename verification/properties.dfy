/** What lib/request.js promises about its requests: how parameters are
    partitioned, what the signature covers, and that a signed request
    verifies, both on the object that signed it and after it has crossed the
    wire as query text. */
module RequestProperties {
  import opened Wrappers
  import opened JsText
  import opened Requests

  // ---------------------------------------------------------------------
  // Partition

  /** The pair at index `j`, when no later pair has the same lower-cased
      key, decides that key: it lands in exactly one of the two maps, the
      auth map exactly when it starts with `auth_`, holding that pair's
      value. */
  lemma {:induction false} PartitionLastWins(query: seq<(string, string)>, j: nat)
    requires j < |query|
    requires forall i :: j < i < |query| ==> Lower(query[i].0) != Lower(query[j].0)
    ensures var s := Partition(query); var k := Lower(query[j].0);
      if IsAuthKey(k) then k in s.auth && s.auth[k] == Text(query[j].1) && k !in s.query
      else k in s.query && s.query[k] == query[j].1 && k !in s.auth
    decreases |query|
  {
    if j < |query| - 1 {
      var front := query[..|query| - 1];
      assert forall i :: j < i < |front| ==> front[i] == query[i];
      PartitionLastWins(front, j);
      assert front[j] == query[j];
    }
  }

  /** Routing a key that neither map holds adds exactly one entry. */
  lemma RouteFreshKey(s: Split, pair: (string, string))
    requires Lower(pair.0) !in s.query && Lower(pair.0) !in s.auth
    ensures |Route(s, pair).query| + |Route(s, pair).auth| == |s.query| + |s.auth| + 1
  {
    var k := Lower(pair.0);
    if IsAuthKey(k) {
      assert Route(s, pair).auth.Keys == s.auth.Keys + {k};
    } else {
      assert Route(s, pair).query.Keys == s.query.Keys + {k};
    }
  }

  /** A key that no pair lower-cases to is in neither map. */
  lemma PartitionAbsent(query: seq<(string, string)>, k: string)
    requires forall i :: 0 <= i < |query| ==> Lower(query[i].0) != k
    ensures k !in Partition(query).query && k !in Partition(query).auth
  {
    PartitionKeys(query);
  }

  /** When the lower-cased keys are all different, the two maps together
      hold as many entries as there were input pairs. */
  lemma {:induction false} PartitionSize(query: seq<(string, string)>)
    requires forall i, j :: 0 <= i < j < |query| ==> Lower(query[i].0) != Lower(query[j].0)
    ensures |Partition(query).query| + |Partition(query).auth| == |query|
    decreases |query|
  {
    if query != [] {
      var front := query[..|query| - 1];
      var last := query[|query| - 1];
      assert forall i, j :: 0 <= i < j < |front| ==> front[i] == query[i] && front[j] == query[j];
      PartitionSize(front);
      forall i | 0 <= i < |front|
        ensures Lower(front[i].0) != Lower(last.0)
      {
        assert front[i] == query[i];
      }
      PartitionAbsent(front, Lower(last.0));
      RouteFreshKey(Partition(front), last);
    }
  }

  /** `new Request("get", "/widgets", {Foo: "bar"})` stores the method
      "GET", the ordinary parameter `foo` and no auth entry. */
  lemma ConstructExample()
    ensures var r := Construct("get", "/widgets", [("Foo", "bar")]);
      r.httpMethod == "GET" && r.path == "/widgets"
      && r.queryHash == map["foo" := "bar"] && r.authHash == map[]
  {
    var q := [("Foo", "bar")];
    assert q[..0] == [];
    assert Lower("Foo") == "foo";
    assert !IsAuthKey("foo");
    assert Upper("get") == "GET";
  }

  /** The window is strict: one unit inside it passes, its edge fails. */
  lemma TimestampBoundary(r: RequestState, t: int, grace: int, now: int)
    requires Signed(r) && Lookup(r.authHash, "auth_timestamp") == Some(Number(t)) && t != 0
    ensures Abs(t - now) == grace - 1 ==> ValidateTimestamp(r, Some(grace), now) == Pass
    ensures Abs(t - now) == grace ==> ValidateTimestamp(r, Some(grace), now) == Fail(TimestampExpired(Number(t), now))
  {
  }

  /** A request built from parameters none of which lower-cases to
      `auth_signature` cannot have its auth block read. */
  lemma FreshRequestUnsigned(httpMethod: string, path: string, query: seq<(string, string)>)
    requires forall i :: 0 <= i < |query| ==> Lower(query[i].0) != "auth_signature"
    ensures AuthHash(Construct(httpMethod, path, query)) == Err(NotSigned)
  {
    PartitionKeys(query);
  }

  // ---------------------------------------------------------------------
  // What the signature covers

  /** The auth block takes no part in the string to sign, so replacing it
      changes neither that string nor the signature. */
  lemma AuthBlockNotSigned(r: RequestState, a: AuthMap, token: Token, ext: Externals)
    ensures StringToSign(r.(authHash := a), ext) == StringToSign(r, ext)
    ensures Signature(r.(authHash := a), token, ext) == Signature(r, token, ext)
  {
  }

  /** A consequence: a request that passes the signature check still passes
      it with its timestamp replaced by any other value. */
  lemma TimestampNotCovered(r: RequestState, token: Token, ext: Externals, v: Value)
    requires ValidateSignature(r, token, ext).Pass?
    ensures ValidateSignature(r.(authHash := r.authHash["auth_timestamp" := v]), token, ext).Pass?
  {
    AuthBlockNotSigned(r, r.authHash["auth_timestamp" := v], token, ext);
  }

  /** A newline-free prefix of `x` ends no later than any newline in `x`. */
  lemma NewlineFreePrefix(x: string, a: string, n: nat)
    requires n < |x| && x[n] == '\n'
    requires |a| <= |x| && x[..|a|] == a && '\n' !in a
    ensures |a| <= n
  {
    assert forall i :: 0 <= i < |a| ==> a[i] == x[i];
  }

  /** With newline-free methods and paths, the string to sign determines the
      method, the path and the canonical ordinary parameters. */
  lemma StringToSignInjective(r: RequestState, r': RequestState, ext: Externals)
    requires '\n' !in r.httpMethod && '\n' !in r.path && '\n' !in r'.httpMethod && '\n' !in r'.path
    requires StringToSign(r, ext) == StringToSign(r', ext)
    ensures r.httpMethod == r'.httpMethod && r.path == r'.path
    ensures ext.parameterString(r.queryHash) == ext.parameterString(r'.queryHash)
  {
    var s := StringToSign(r, ext);
    var m, p := |r.httpMethod|, |r.path|;
    NewlineFreePrefix(s, r.httpMethod, |r'.httpMethod|);
    NewlineFreePrefix(s, r'.httpMethod, m);
    var x := s[m + 1..];
    assert x[..p] == s[m + 1..m + 1 + p] && x[p] == s[m + 1 + p];
    assert x[..|r'.path|] == s[m + 1..m + 1 + |r'.path|] && x[|r'.path|] == s[m + 1 + |r'.path|];
    NewlineFreePrefix(x, r.path, |r'.path|);
    NewlineFreePrefix(x, r'.path, p);
  }

  /** Tampering: if a signature accepted for one request is also accepted
      for a request with another method, path or canonical parameter string,
      then the HMAC maps two different messages to the same digest. */
  lemma TamperNeedsCollision(r: RequestState, r': RequestState, token: Token, ext: Externals)
    requires '\n' !in r.httpMethod && '\n' !in r.path && '\n' !in r'.httpMethod && '\n' !in r'.path
    requires r.httpMethod != r'.httpMethod || r.path != r'.path
          || ext.parameterString(r.queryHash) != ext.parameterString(r'.queryHash)
    requires ValidateSignature(r, token, ext).Pass? && ValidateSignature(r', token, ext).Pass?
    requires r.authHash["auth_signature"] == r'.authHash["auth_signature"]
    ensures StringToSign(r, ext) != StringToSign(r', ext)
    ensures ext.hmac(token.secret, StringToSign(r, ext)) == ext.hmac(token.secret, StringToSign(r', ext))
  {
    if StringToSign(r, ext) == StringToSign(r', ext) {
      StringToSignInjective(r, r', ext);
    }
  }

  // ---------------------------------------------------------------------
  // Signing

  /** The block `sign` installs depends only on the method, path and
      ordinary parameters, never on the auth block it replaces; signing a
      signed request again at the same time changes nothing. */
  lemma SignForgetsEarlierAuth(r: RequestState, a: AuthMap, token: Token, now: int, ext: Externals)
    ensures NewAuthBlock(r.(authHash := a), token, now, ext) == NewAuthBlock(r, token, now, ext)
    ensures var signed := r.(authHash := NewAuthBlock(r, token, now, ext));
      signed.(authHash := NewAuthBlock(signed, token, now, ext)) == signed
  {
    AuthBlockNotSigned(r, a, token, ext);
    AuthBlockNotSigned(r, NewAuthBlock(r, token, now, ext), token, ext);
  }

  function SignedAt(r: RequestState, token: Token, now: int, ext: Externals): RequestState {
    r.(authHash := NewAuthBlock(r, token, now, ext))
  }

  /** Sign, then verify on the same object with the same token and clock:
      the raising pipeline passes for a null grace, an omitted one, or any
      positive one. A clock reading of 0 is excluded: the stored number 0 is
      falsy (see SignedAtEpochRejected). */
  lemma SignThenVerify(r: RequestState, token: Token, grace: Grace, now: int, ext: Externals)
    requires Signature(r, token, ext) != ""
    requires grace.Null? || (now != 0 && (grace.Omitted? || (grace.Given? && grace.n > 0)))
    ensures AuthenticateByTokenWithExceptions(SignedAt(r, token, now, ext), token, grace, now, ext) == Pass
  {
    AuthBlockNotSigned(r, NewAuthBlock(r, token, now, ext), token, ext);
  }

  /** The boolean entry point accepts what was just signed for every grace
      argument except a negative number. */
  lemma SignThenAuthenticateByToken(r: RequestState, token: Token, grace: Grace, now: int, ext: Externals)
    requires Signature(r, token, ext) != "" && now != 0
    requires !(grace.Given? && grace.n < 0)
    ensures AuthenticateByToken(SignedAt(r, token, now, ext), token, grace, now, ext)
  {
    SignThenVerify(r, token, Given(GraceOrDefault(grace)), now, ext);
  }

  /** The resolver entry point returns the token a signed request names,
      when the resolver hands that token back. */
  lemma SignThenAuthenticate(
    r: RequestState, token: Token, grace: Grace, resolver: Value -> Option<Token>, now: int, ext: Externals)
    requires Signature(r, token, ext) != "" && now != 0
    requires token.key != "" && token.secret != ""
    requires resolver(Text(token.key)) == Some(token)
    requires !(grace.Given? && grace.n < 0)
    ensures Authenticate(SignedAt(r, token, now, ext), grace, resolver, now, ext) == Ok(token)
  {
    SignThenVerify(r, token, Given(GraceOrDefault(grace)), now, ext);
  }

  /** At clock reading 0 the stored timestamp is the falsy number 0, so the
      window check reports it missing. */
  lemma SignedAtEpochRejected(r: RequestState, token: Token, grace: Grace, ext: Externals)
    requires Signature(r, token, ext) != ""
    requires !grace.Null?
    ensures AuthenticateByTokenWithExceptions(SignedAt(r, token, 0, ext), token, grace, 0, ext)
         == Fail(TimestampRequired)
  {
  }

  /** The version gate: a version other than "1.0" fails whatever the
      signature and the timestamp. */
  lemma VersionGate(r: RequestState, token: Token, grace: Grace, now: int, ext: Externals)
    requires "auth_version" in r.authHash && AsText(r.authHash["auth_version"]) != SupportedVersion
    ensures AuthenticateByTokenWithExceptions(r, token, grace, now, ext).Fail?
    ensures !AuthenticateByToken(r, token, grace, now, ext)
  {
  }

  // ---------------------------------------------------------------------
  // Across the wire

  /** The four entries of a signed block as the query pairs a client sends:
      every value becomes text. */
  function WirePairs(a: AuthMap): seq<(string, string)>
    requires "auth_version" in a && "auth_key" in a && "auth_timestamp" in a && "auth_signature" in a
  {
    [("auth_version", AsText(a["auth_version"])),
     ("auth_key", AsText(a["auth_key"])),
     ("auth_timestamp", AsText(a["auth_timestamp"])),
     ("auth_signature", AsText(a["auth_signature"]))]
  }

  /** Appending pairs whose keys are reserved leaves the ordinary
      parameters as they were. */
  lemma {:induction false} PartitionAppendAuth(query: seq<(string, string)>, extra: seq<(string, string)>)
    requires forall i :: 0 <= i < |extra| ==> IsAuthKey(Lower(extra[i].0))
    ensures Partition(query + extra).query == Partition(query).query
    decreases |extra|
  {
    if extra != [] {
      var all := query + extra;
      var front := extra[..|extra| - 1];
      assert all[..|all| - 1] == query + front;
      assert all[|all| - 1] == extra[|extra| - 1];
      assert IsAuthKey(Lower(all[|all| - 1].0));
      assert Partition(all) == Route(Partition(query + front), all[|all| - 1]);
      PartitionAppendAuth(query, front);
    } else {
      assert query + extra == query;
    }
  }

  lemma LowerKeepsLowerCase(s: string)
    requires forall i :: 0 <= i < |s| ==> !('A' <= s[i] <= 'Z')
    ensures Lower(s) == s
  {
  }

  /** The pairs of a signed block have four different, lower-case,
      reserved keys. */
  lemma WirePairsReserved(a: AuthMap)
    requires "auth_version" in a && "auth_key" in a && "auth_timestamp" in a && "auth_signature" in a
    ensures var pairs := WirePairs(a);
      && (forall i :: 0 <= i < |pairs| ==> Lower(pairs[i].0) == pairs[i].0 && IsAuthKey(pairs[i].0))
      && (forall i, j :: 0 <= i < j < |pairs| ==> pairs[i].0 != pairs[j].0)
  {
    var pairs := WirePairs(a);
    forall i | 0 <= i < |pairs|
      ensures Lower(pairs[i].0) == pairs[i].0 && IsAuthKey(pairs[i].0)
    {
      LowerKeepsLowerCase(pairs[i].0);
    }
  }

  /** Appended pairs with different lower-case reserved keys all end up in
      the auth map with their values. */
  lemma PartitionAppendAuthEntries(query: seq<(string, string)>, extra: seq<(string, string)>)
    requires forall i :: 0 <= i < |extra| ==> Lower(extra[i].0) == extra[i].0 && IsAuthKey(extra[i].0)
    requires forall i, j :: 0 <= i < j < |extra| ==> extra[i].0 != extra[j].0
    ensures forall i :: 0 <= i < |extra| ==>
      extra[i].0 in Partition(query + extra).auth && Partition(query + extra).auth[extra[i].0] == Text(extra[i].1)
  {
    var all := query + extra;
    var n := |query|;
    forall i | 0 <= i < |extra|
      ensures extra[i].0 in Partition(all).auth && Partition(all).auth[extra[i].0] == Text(extra[i].1)
    {
      assert all[n + i] == extra[i];
      forall m | n + i < m < |all|
        ensures Lower(all[m].0) != Lower(all[n + i].0)
      {
        assert all[m] == extra[m - n];
      }
      PartitionLastWins(all, n + i);
    }
  }

  /** A request whose entries arrived as text: version "1.0", a signature
      matching the token, and a decimal timestamp inside the window. */
  lemma AcceptedAsText(r: RequestState, token: Token, grace: Grace, now: int, later: int, ext: Externals)
    requires Signature(r, token, ext) != ""
    requires "auth_version" in r.authHash && r.authHash["auth_version"] == Text(SupportedVersion)
    requires "auth_signature" in r.authHash && r.authHash["auth_signature"] == Text(Signature(r, token, ext))
    requires "auth_timestamp" in r.authHash && r.authHash["auth_timestamp"] == Text(DecimalText(now))
    requires Abs(later - now) < GraceOrDefault(grace)
    ensures AuthenticateByToken(r, token, grace, later, ext)
  {
    ParseIntOfDecimalText(now);
  }

  /** The protocol's round trip. A client builds a request, signs it at
      `now`, and sends its method, path, original parameters and the four
      auth entries as text. The server rebuilds a request from what it
      received and, with the same token, accepts it at any clock reading
      `later` within the grace window, even at `now == 0`, since the
      timestamp now arrives as text. */
  lemma WireRoundTrip(
    httpMethod: string, path: string, query: seq<(string, string)>,
    token: Token, now: int, later: int, grace: Grace, ext: Externals)
    requires Signature(Construct(httpMethod, path, query), token, ext) != ""
    requires Abs(later - now) < GraceOrDefault(grace)
    ensures var sent := SignedAt(Construct(httpMethod, path, query), token, now, ext);
      var received := Construct(sent.httpMethod, path, query + WirePairs(sent.authHash));
      AuthenticateByToken(received, token, grace, later, ext)
  {
    var sender := Construct(httpMethod, path, query);
    var sent := SignedAt(sender, token, now, ext);
    var pairs := WirePairs(sent.authHash);
    var received := Construct(sent.httpMethod, path, query + pairs);

    UpperIdempotent(httpMethod);
    WirePairsReserved(sent.authHash);
    PartitionAppendAuth(query, pairs);
    PartitionAppendAuthEntries(query, pairs);
    assert received.httpMethod == sender.httpMethod;
    assert received.queryHash == sender.queryHash;
    AuthBlockNotSigned(sender, received.authHash, token, ext);

    assert pairs[0] == ("auth_version", SupportedVersion);
    assert pairs[2] == ("auth_timestamp", DecimalText(now));
    assert pairs[3] == ("auth_signature", Signature(sender, token, ext));
    AcceptedAsText(received, token, grace, now, later, ext);
  }
}
