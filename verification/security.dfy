/** Request authorisation: the ordered route-permission table and CORS
    settings of the security configuration, and the Bearer-header guard chain
    of the authorization filter. Token decoding is an uninterpreted `claim`
    function from token text to username. */
module Security {
  import opened Domain
  import opened Text
  import opened Members

  // ---------------------------------------------------------------- route rules

  datatype HttpMethod = GET | POST | PUT | PATCH | DELETE | OtherMethod(name: string)

  /** What a rule demands of the request. */
  datatype Access = PermitAll | HasRole(role: string)

  /** Which requests a rule applies to. */
  datatype Matcher =
    | Paths(verb: Option<HttpMethod>, paths: seq<string>)  // exact paths, optionally for one method only
    | Under(base: string)                                    // `base/**`: the base itself and everything below it
    | AnyRequest

  datatype Rule = Rule(matcher: Matcher, access: Access)

  predicate StartsWith(s: string, prefix: string) {
    |prefix| <= |s| && s[..|prefix|] == prefix
  }

  predicate Applies(m: Matcher, verb: HttpMethod, path: string) {
    match m
    case Paths(only, paths) => (only.None? || only.value == verb) && path in paths
    case Under(base) => path == base || StartsWith(path, base + "/")
    case AnyRequest => true
  }

  /** The rule table of the security filter chain, in declaration order. */
  const Rules: seq<Rule> := [
    Rule(Paths(Some(POST), ["/api/members"]), PermitAll),
    Rule(Paths(None, ["/api/login", "/api/refresh"]), PermitAll),
    Rule(Under("/api/seniors/photos"), PermitAll),
    Rule(Paths(None, ["/api/administrative-districts"]), PermitAll),
    Rule(AnyRequest, HasRole("ADMIN"))
  ]

  /** The index of the first rule of `rules` that applies, if any. */
  function FirstMatch(rules: seq<Rule>, verb: HttpMethod, path: string): (r: Option<nat>)
    ensures r.Some? ==> r.value < |rules| && Applies(rules[r.value].matcher, verb, path)
    ensures r.Some? ==> forall k :: 0 <= k < r.value ==> !Applies(rules[k].matcher, verb, path)
    ensures r.None? <==> forall k :: 0 <= k < |rules| ==> !Applies(rules[k].matcher, verb, path)
  {
    if rules == [] then None
    else if Applies(rules[0].matcher, verb, path) then Some(0)
    else match FirstMatch(rules[1..], verb, path)
      case None => None
      case Some(k) => Some(k + 1)
  }

  /** The access the first applicable rule demands. */
  function Decide(verb: HttpMethod, path: string): Access {
    var k := FirstMatch(Rules, verb, path);
    if k.Some? then Rules[k.value].access else HasRole("ADMIN")
  }

  /** The requests one of the permitAll rules lets through. */
  predicate IsOpen(verb: HttpMethod, path: string) {
    (verb == POST && path == "/api/members")
    || path == "/api/login" || path == "/api/refresh"
    || path == "/api/seniors/photos" || StartsWith(path, "/api/seniors/photos/")
    || path == "/api/administrative-districts"
  }

  /** The table opens exactly the listed requests and demands the ADMIN role
      for every other one, including non-POST requests to /api/members. */
  lemma DecideSpec(verb: HttpMethod, path: string)
    ensures Decide(verb, path) == (if IsOpen(verb, path) then PermitAll else HasRole("ADMIN"))
  {
    var k := FirstMatch(Rules, verb, path);
    assert Applies(Rules[4].matcher, verb, path);
    if IsOpen(verb, path) {
      if verb == POST && path == "/api/members" {
        assert Applies(Rules[0].matcher, verb, path);
      } else if path == "/api/login" || path == "/api/refresh" {
        assert Applies(Rules[1].matcher, verb, path);
      } else if path == "/api/seniors/photos" || StartsWith(path, "/api/seniors/photos/") {
        assert Applies(Rules[2].matcher, verb, path);
      } else {
        assert Applies(Rules[3].matcher, verb, path);
      }
    } else {
      assert !Applies(Rules[0].matcher, verb, path);
      assert !Applies(Rules[1].matcher, verb, path);
      assert !Applies(Rules[2].matcher, verb, path);
      assert !Applies(Rules[3].matcher, verb, path);
    }
  }

  /** First match decides: the table gives the same answer as any table that
      begins with the same rules up to and including the first applicable one. */
  lemma {:induction false} FirstMatchDecides(rules: seq<Rule>, more: seq<Rule>, verb: HttpMethod, path: string)
    requires FirstMatch(rules, verb, path).Some?
    ensures FirstMatch(rules + more, verb, path) == FirstMatch(rules, verb, path)
  {
    assert (rules + more)[0] == rules[0];
    if !Applies(rules[0].matcher, verb, path) {
      assert (rules + more)[1..] == rules[1..] + more;
      FirstMatchDecides(rules[1..], more, verb, path);
    }
  }

  // ---------------------------------------------------------------- CORS

  datatype CorsConfig = CorsConfig(
    allowedOrigins: seq<string>,
    allowAllMethods: bool,
    allowAllHeaders: bool,
    allowCredentials: bool,
    exposedHeaders: seq<string>)

  /** The CORS configuration registered for every path. */
  const Cors: CorsConfig := CorsConfig(
    ["http://localhost:3000", "http://dev-web.iptime.org:8000", "http://dev-web.iptime.org:80"],
    true, true, true, ["Authorization"])

  /** CorsConfiguration's trimTrailingSlash: at most one trailing "/" goes. */
  function TrimTrailingSlash(origin: string): (r: string)
    ensures |r| <= |origin| && r == origin[..|r|]
    ensures |origin| - 1 <= |r|
  {
    if |origin| > 0 && origin[|origin| - 1] == '/' then origin[..|origin| - 1] else origin
  }

  /** Character.toLowerCase on the ASCII letters. */
  function AsciiLower(c: char): char {
    if 'A' <= c <= 'Z' then (c as int + 32) as char else c
  }

  /** String.equalsIgnoreCase, with case folding restricted to ASCII letters. */
  predicate EqualsIgnoreCase(a: string, b: string) {
    |a| == |b| && forall i :: 0 <= i < |a| ==> AsciiLower(a[i]) == AsciiLower(b[i])
  }

  /** The text with every ASCII capital replaced by its small letter. */
  function LowerAscii(s: string): (r: string)
    ensures |r| == |s| && forall i :: 0 <= i < |s| ==> r[i] == AsciiLower(s[i])
  {
    seq(|s|, i requires 0 <= i < |s| => AsciiLower(s[i]))
  }

  /** CorsConfiguration.checkOrigin: an origin with text, less one trailing
      slash, equal ignoring case to a configured origin. */
  predicate OriginAllowed(origin: string) {
    HasText(origin)
    && exists i :: 0 <= i < |Cors.allowedOrigins| && EqualsIgnoreCase(TrimTrailingSlash(origin), Cors.allowedOrigins[i])
  }

  /** The configured origins are written in small letters and start with "h". */
  lemma ConfiguredOriginsLower(i: int)
    requires 0 <= i < |Cors.allowedOrigins|
    ensures LowerAscii(Cors.allowedOrigins[i]) == Cors.allowedOrigins[i]
    ensures |Cors.allowedOrigins[i]| > 0 && Cors.allowedOrigins[i][0] == 'h'
  {
    var a := Cors.allowedOrigins[i];
    forall k | 0 <= k < |a| ensures AsciiLower(a[k]) == a[k] {
      assert !('A' <= a[k] <= 'Z');
    }
  }

  /** Comparing ignoring case against a small-letter text is comparing its
      lower-cased form. */
  lemma EqualsIgnoreCaseLower(x: string, a: string)
    requires LowerAscii(a) == a
    ensures EqualsIgnoreCase(x, a) <==> LowerAscii(x) == a
  {
    if LowerAscii(x) == a {
      forall k | 0 <= k < |x| ensures AsciiLower(x[k]) == AsciiLower(a[k]) {
        assert LowerAscii(a)[k] == a[k];
      }
    }
    if EqualsIgnoreCase(x, a) {
      forall k | 0 <= k < |x| ensures LowerAscii(x)[k] == a[k] {
        assert LowerAscii(a)[k] == a[k];
      }
    }
  }

  /** An origin is allowed exactly when, less one trailing slash and lower-cased,
      it is one of the configured origins. */
  lemma OriginAllowedSpec(origin: string)
    ensures OriginAllowed(origin) <==> LowerAscii(TrimTrailingSlash(origin)) in Cors.allowedOrigins
  {
    var x := TrimTrailingSlash(origin);
    forall i | 0 <= i < |Cors.allowedOrigins|
      ensures EqualsIgnoreCase(x, Cors.allowedOrigins[i]) <==> LowerAscii(x) == Cors.allowedOrigins[i]
    {
      ConfiguredOriginsLower(i);
      EqualsIgnoreCaseLower(x, Cors.allowedOrigins[i]);
    }
    if LowerAscii(x) in Cors.allowedOrigins {
      var i :| 0 <= i < |Cors.allowedOrigins| && LowerAscii(x) == Cors.allowedOrigins[i];
      ConfiguredOriginsLower(i);
      assert AsciiLower(origin[0]) == 'h';
      assert !IsJavaWhitespace(origin[0]);
    }
  }

  /** Every configured origin is allowed as written. */
  lemma ConfiguredOriginAllowed(i: int)
    requires 0 <= i < |Cors.allowedOrigins|
    ensures OriginAllowed(Cors.allowedOrigins[i])
  {
    var a := Cors.allowedOrigins[i];
    assert a[|a| - 1] != '/';
    ConfiguredOriginsLower(i);
    OriginAllowedSpec(a);
  }

  /** One trailing slash does not change the answer. */
  lemma TrailingSlashIgnored(origin: string)
    requires |origin| == 0 || origin[|origin| - 1] != '/'
    ensures OriginAllowed(origin + "/") == OriginAllowed(origin)
  {
    assert TrimTrailingSlash(origin + "/") == origin;
    OriginAllowedSpec(origin + "/");
    OriginAllowedSpec(origin);
  }

  /** Lower-casing commutes with dropping the trailing slash. */
  lemma LowerTrimCommute(s: string)
    ensures LowerAscii(TrimTrailingSlash(s)) == TrimTrailingSlash(LowerAscii(s))
  {
    if |s| > 0 && s[|s| - 1] == '/' {
      assert LowerAscii(s[..|s| - 1]) == LowerAscii(s)[..|s| - 1];
    }
  }

  /** Two origins that differ only in the case of ASCII letters get the same answer. */
  lemma CaseIgnored(a: string, b: string)
    requires LowerAscii(a) == LowerAscii(b)
    ensures OriginAllowed(a) == OriginAllowed(b)
  {
    LowerTrimCommute(a);
    LowerTrimCommute(b);
    OriginAllowedSpec(a);
    OriginAllowedSpec(b);
  }

  /** What the CORS processor answers a request under this configuration. A
      request without an Origin header is not a CORS request and gets no CORS
      headers; one from an origin that is not allowed is refused with 403. */
  datatype CorsAnswer =
    | NotCors
    | CorsRefused
    | CorsGranted(allowOrigin: string, allowCredentials: bool, exposedHeaders: seq<string>,
                allowMethods: seq<string>, allowHeaders: seq<string>)

  /** An allowed origin is echoed back; with every method and header allowed,
      the requested method and headers are the ones granted. */
  function AnswerCors(origin: Option<string>, requestMethod: string, requestHeaders: seq<string>): CorsAnswer {
    match origin
    case None => NotCors
    case Some(o) =>
      if !OriginAllowed(o) then CorsRefused
      else CorsGranted(o, Cors.allowCredentials, Cors.exposedHeaders,
                       if Cors.allowAllMethods then [requestMethod] else [],
                       if Cors.allowAllHeaders then requestHeaders else [])
  }

  /** A cross-origin request is granted exactly when its origin, less one
      trailing slash and lower-cased, is one of the three configured origins;
      every other cross-origin request is refused. A grant echoes the origin,
      lets the browser send credentials, exposes the Authorization response
      header, and allows the method and headers that were asked for. */
  lemma AnswerCorsSpec(origin: Option<string>, requestMethod: string, requestHeaders: seq<string>)
    ensures origin.None? <==> AnswerCors(origin, requestMethod, requestHeaders).NotCors?
    ensures AnswerCors(origin, requestMethod, requestHeaders).CorsGranted?
            <==> origin.Some? && LowerAscii(TrimTrailingSlash(origin.value)) in Cors.allowedOrigins
    ensures AnswerCors(origin, requestMethod, requestHeaders).CorsRefused?
            <==> origin.Some? && LowerAscii(TrimTrailingSlash(origin.value)) !in Cors.allowedOrigins
    ensures var a := AnswerCors(origin, requestMethod, requestHeaders);
            a.CorsGranted? ==>
              && a.allowOrigin == origin.value && a.allowCredentials
              && a.exposedHeaders == ["Authorization"]
              && a.allowMethods == [requestMethod] && a.allowHeaders == requestHeaders
  {
    if origin.Some? {
      OriginAllowedSpec(origin.value);
    }
  }

  // ---------------------------------------------------------------- authorization filter

  /** The authentication put in the security context: the member's username and
      password and its authorities. */
  datatype Authentication = Authentication(username: string, password: string, authorities: seq<string>)

  const BearerPrefix: string := "Bearer "

  /** The token text: the header with every "Bearer " removed. */
  function BearerToken(header: string): string {
    RemoveAll(header, BearerPrefix)
  }

  /** A header made of the prefix and a token that does not itself contain
      "Bearer " yields that token. */
  lemma BearerTokenOfPrefixedToken(token: string)
    requires !Contains(token, BearerPrefix)
    ensures BearerToken(BearerPrefix + token) == token
  {
    var h := BearerPrefix + token;
    assert h[..|BearerPrefix|] == BearerPrefix;
    assert h[|BearerPrefix|..] == token;
    RemoveAllAbsent(token, BearerPrefix);
  }

  /** The outcome of the guard chain: the authentication it installs, if any. */
  function Authenticate(header: Option<string>, members: map<string, Account>, claim: string -> string)
    : Option<Authentication>
  {
    if header.None? || !StartsWith(header.value, BearerPrefix) then None
    else
      var username := claim(BearerToken(header.value));
      if username !in members then None
      else if !members[username].enabled then None
      else
        var m := members[username];
        Some(Authentication(username, m.password, [RoleName(m.role)]))
  }

  /** An authentication is installed exactly for a Bearer header whose token
      names an enabled member, with that member's role as its single authority. */
  lemma AuthenticateSpec(header: Option<string>, members: map<string, Account>, claim: string -> string)
    ensures Authenticate(header, members, claim).Some? <==>
              (header.Some? && StartsWith(header.value, BearerPrefix)
               && claim(BearerToken(header.value)) in members
               && members[claim(BearerToken(header.value))].enabled)
    ensures Authenticate(header, members, claim).Some? ==>
              var a := Authenticate(header, members, claim).value;
              a.username in members && members[a.username].enabled
              && a.authorities == [RoleName(members[a.username].role)]
              && a.password == members[a.username].password
  {
  }

  /** Whether an authentication satisfies what a rule demands. */
  predicate Granted(access: Access, auth: Option<Authentication>) {
    access.PermitAll? || (auth.Some? && "ROLE_" + access.role in auth.value.authorities)
  }

  /** End to end: a request gets through exactly when its route is open or its
      Bearer token names an enabled member whose role is ROLE_ADMIN. */
  lemma RequestGranted(verb: HttpMethod, path: string, header: Option<string>,
                       members: map<string, Account>, claim: string -> string)
    ensures Granted(Decide(verb, path), Authenticate(header, members, claim)) <==>
              (IsOpen(verb, path)
               || (Authenticate(header, members, claim).Some?
                   && RoleName(members[Authenticate(header, members, claim).value.username].role) == "ROLE_ADMIN"))
  {
    DecideSpec(verb, path);
    AuthenticateSpec(header, members, claim);
    assert "ROLE_" + "ADMIN" == "ROLE_ADMIN";
  }

  /** The per-request security context and the filter chain behind the filter. */
  class RequestContext {
    var authentication: Option<Authentication>
    var chainCalls: nat

    constructor()
      ensures authentication.None? && chainCalls == 0
    {
      authentication := None;
      chainCalls := 0;
    }

    /** doFilterInternal: each guard that fails passes the request on without
        authentication; the request is passed on exactly once on every path. */
    method DoFilterInternal(header: Option<string>, members: map<string, Account>, claim: string -> string)
      modifies this
      ensures chainCalls == old(chainCalls) + 1
      ensures authentication == (if Authenticate(header, members, claim).Some?
                                 then Authenticate(header, members, claim)
                                 else old(authentication))
    {
      if header.None? || !StartsWith(header.value, BearerPrefix) {
        chainCalls := chainCalls + 1;
        return;
      }
      var jwtToken := BearerToken(header.value);
      var username := claim(jwtToken);
      if username !in members {
        chainCalls := chainCalls + 1;
        return;
      }
      var found := members[username];
      if !found.enabled {
        chainCalls := chainCalls + 1;
        return;
      }
      authentication := Some(Authentication(username, found.password, [RoleName(found.role)]));
      chainCalls := chainCalls + 1;
    }
  }
}
