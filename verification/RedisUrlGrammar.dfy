// Exactly which URLs name which Redis endpoint.
module RedisUrlGrammar {
  import opened Wrappers
  import opened Text
  import opened RedisUrl

  // The scheme, the text up to the first slash, and what follows it, if any.
  ghost predicate UrlParts(url: string, authority: string, path: string) {
    && '/' !in authority
    && (url == "redis://" + authority + "/" + path || (path == "" && url == "redis://" + authority))
  }

  // The user information before the last at sign.
  ghost predicate AuthorityParts(authority: string, user: Option<string>, hostport: string) {
    && '@' !in hostport
    && authority == (match user case None => hostport case Some(text) => text + "@" + hostport)
  }

  // The port after the last colon.
  ghost predicate HostParts(hostport: string, host: string, port: Option<string>) {
    match port
    case None => ':' !in hostport && host == hostport
    case Some(text) => ':' !in text && hostport == host + ":" + text
  }

  ghost predicate PortIs(port: Option<string>, n: nat) {
    match port
    case None => n == 6379
    case Some(text) =>
      n <= 65535 && exists digits :: (Signed(text, "", digits) || Signed(text, "+", digits)) && n == Value(digits)
  }

  ghost predicate DbIs(path: string, n: int) {
    if path == "" then n == 0
    else
      && -9223372036854775808 <= n <= 9223372036854775807
      && exists digits :: (Signed(path, "", digits) && n == Value(digits))
                          || (Signed(path, "+", digits) && n == Value(digits))
                          || (Signed(path, "-", digits) && n == -Value(digits))
  }

  // The user information after its first colon, or all of it without one; an
  // empty password is none.
  ghost predicate PasswordIs(user: Option<string>, password: Option<string>) {
    match user
    case None => password == None
    case Some(text) =>
      exists secret :: SecretIn(text, secret) && password == if secret == "" then None else Some(secret)
  }

  ghost predicate SecretIn(user: string, secret: string) {
    (':' !in user && secret == user) || exists name :: ':' !in name && user == name + ":" + secret
  }

  ghost predicate Names(
    url: string, e: Endpoint, authority: string, path: string, user: Option<string>, hostport: string,
    port: Option<string>)
  {
    && UrlParts(url, authority, path)
    && AuthorityParts(authority, user, hostport)
    && HostParts(hostport, e.host, port)
    && e.host != ""
    && PortIs(port, e.port) && DbIs(path, e.db) && PasswordIs(user, e.password)
  }

  lemma PortIff(port: Option<string>, hostport: string, host: string, n: Port)
    requires HostParts(hostport, host, port)
    ensures ParseHostPort(hostport) == Some((host, n)) <==> PortIs(port, n)
    ensures ParseHostPort(hostport).Some? ==> ParseHostPort(hostport).value.0 == host
  {
    match port
    case None =>
    case Some(text) =>
      assert hostport == host + [':'] + text;
      RSplitOnceOf(host, text, ':');
      ParseU16Iff(text, n);
  }

  lemma DbIff(path: string, n: Db)
    ensures ParseDb(path) == Some(n) <==> DbIs(path, n)
  {
    ParseI64Iff(path, n);
  }

  lemma PasswordIff(user: string, password: Option<string>)
    ensures PasswordOf(user) == password <==> PasswordIs(Some(user), password)
  {
    forall name, secret | ':' !in name && user == name + ":" + secret
      ensures SplitOnce(user, ':') == Some((name, secret))
    {
      assert user == name + [':'] + secret;
      SplitOnceOf(name, secret, ':');
    }
    var own := match SplitOnce(user, ':') case None => user case Some((_, after)) => after;
    if ':' in user {
      var (name, secret) := SplitOnce(user, ':').value;
      assert user == name + ":" + secret;
    }
    assert SecretIn(user, own);
    assert forall secret :: SecretIn(user, secret) ==> secret == own;
    hide SecretIn;
  }

  lemma AuthorityIff(
    authority: string, path: string, user: Option<string>, hostport: string, port: Option<string>, host: string,
    e: Endpoint)
    requires AuthorityParts(authority, user, hostport) && HostParts(hostport, host, port)
    ensures ParseAuthority(authority, path) == Some(e) <==>
            && e.host == host && host != ""
            && PortIs(port, e.port) && DbIs(path, e.db) && PasswordIs(user, e.password)
  {
    PortIff(port, hostport, host, e.port);
    DbIff(path, e.db);
    hide PortIs, DbIs, PasswordIs, ParseHostPort, ParseDb, PasswordOf;
    match user
    case None =>
      assert PasswordIs(None, None) && forall secret :: PasswordIs(None, Some(secret)) ==> false by {
        NoUserNoPassword();
      }
    case Some(text) =>
      assert authority == text + ['@'] + hostport;
      RSplitOnceOf(text, hostport, '@');
      PasswordIff(text, e.password);
  }

  lemma NoUserNoPassword()
    ensures forall password :: PasswordIs(None, password) <==> password == None
  {
  }

  // How a URL falls into parts, and that it can only do so in one way.
  lemma UrlIff(url: string, authority: string, path: string)
    requires UrlParts(url, authority, path)
    ensures Parse(url) == ParseAuthority(authority, path)
  {
    hide ParseAuthority;
    var rest := url[|SCHEME|..];
    if url == "redis://" + authority + "/" + path {
      assert url == SCHEME + (authority + ['/'] + path);
      assert rest == authority + ['/'] + path;
      SplitOnceOf(authority, path, '/');
    } else {
      assert rest == authority;
    }
  }

  lemma SomeParts(url: string) returns (authority: string, path: string)
    requires SCHEME <= url
    ensures UrlParts(url, authority, path)
  {
    var rest := url[|SCHEME|..];
    assert url == SCHEME + rest;
    match SplitOnce(rest, '/')
    case None => authority, path := rest, "";
    case Some((a, p)) =>
      authority, path := a, p;
      assert url == "redis://" + authority + "/" + path;
  }

  lemma SomeAuthorityParts(authority: string) returns (user: Option<string>, hostport: string)
    ensures AuthorityParts(authority, user, hostport)
  {
    match RSplitOnce(authority, '@')
    case None => user, hostport := None, authority;
    case Some((text, after)) => user, hostport := Some(text), after;
  }

  lemma SomeHostParts(hostport: string) returns (host: string, port: Option<string>)
    ensures HostParts(hostport, host, port)
  {
    match RSplitOnce(hostport, ':')
    case None => host, port := hostport, None;
    case Some((before, text)) => host, port := before, Some(text);
  }

  // The parser reads an endpoint from a URL exactly if the URL consists of the
  // scheme, an optional user part, a host, an optional port and an optional
  // database, and these are the endpoint's; the port defaults to 6379 and the
  // database to 0.
  lemma ParseIff(url: string, e: Endpoint)
    ensures Parse(url) == Some(e) <==>
            exists authority, path, user, hostport, port :: Names(url, e, authority, path, user, hostport, port)
  {
    hide UrlParts, AuthorityParts, HostParts, PortIs, DbIs, PasswordIs, ParseAuthority;
    if Parse(url) == Some(e) {
      assert SCHEME <= url;
      hide Parse;
      var authority, path := SomeParts(url);
      UrlIff(url, authority, path);
      var user, hostport := SomeAuthorityParts(authority);
      var host, port := SomeHostParts(hostport);
      AuthorityIff(authority, path, user, hostport, port, host, e);
      assert Names(url, e, authority, path, user, hostport, port);
    }
    hide Parse;
    if authority, path, user, hostport, port :| Names(url, e, authority, path, user, hostport, port) {
      UrlIff(url, authority, path);
      AuthorityIff(authority, path, user, hostport, port, e.host, e);
    }
  }
}
