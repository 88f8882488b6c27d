// Redis connection settings and the URL form they are given in.
module RedisUrl {
  import opened Wrappers
  import opened Text

  type Port = n: nat | n <= U16_MAX

  type Db = n: int | I64_MIN <= n <= I64_MAX

  datatype Endpoint = Endpoint(host: string, port: Port, db: Db, password: Option<string>)

  const SCHEME := "redis://"
  const DEFAULT_PORT: Port := 6379

  // The text after the user name, if one is given; an empty password is none.
  function PasswordOf(userinfo: string): Option<string> {
    var password := match SplitOnce(userinfo, ':')
      case None => userinfo
      case Some((_, after)) => after;
    if password == "" then None else Some(password)
  }

  function ParseHostPort(hostport: string): Option<(string, Port)> {
    match RSplitOnce(hostport, ':')
    case None => Some((hostport, DEFAULT_PORT))
    case Some((host, port)) =>
      match ParseU16(port)
      case None => None
      case Some(n) => Some((host, n))
  }

  function ParseDb(path: string): Option<Db> {
    if path == "" then Some(0)
    else match ParseI64(path)
      case None => None
      case Some(n) => Some(n)
  }

  function ParseAuthority(authority: string, path: string): Option<Endpoint> {
    var (password, hostport) := match RSplitOnce(authority, '@')
      case None => (None, authority)
      case Some((userinfo, after)) => (PasswordOf(userinfo), after);
    match ParseHostPort(hostport)
    case None => None
    case Some((host, port)) =>
      if host == "" then None
      else match ParseDb(path)
        case None => None
        case Some(db) => Some(Endpoint(host, port, db, password))
  }

  function Parse(url: string): Option<Endpoint> {
    if !(SCHEME <= url) then None
    else
      var rest := url[|SCHEME|..];
      match SplitOnce(rest, '/')
      case None => ParseAuthority(rest, "")
      case Some((authority, path)) => ParseAuthority(authority, path)
  }

  // The canonical URL of an endpoint.
  function Print(e: Endpoint): string {
    SCHEME
    + (match e.password case None => "" case Some(password) => ":" + password + "@")
    + e.host + ":" + Digits(e.port) + "/" + Render(e.db)
  }

  /* ---------- The parser undoes the printer ---------- */

  // What an endpoint must satisfy for its URL to be read back.
  predicate Printable(e: Endpoint) {
    && e.host != "" && '/' !in e.host && '@' !in e.host
    && (e.password.Some? ==> e.password.value != "" && '/' !in e.password.value)
  }

  function UserPart(e: Endpoint): string {
    match e.password case None => "" case Some(password) => ":" + password + "@"
  }

  function HostPort(e: Endpoint): string {
    e.host + ":" + Digits(e.port)
  }

  lemma DigitsPlain(n: nat)
    ensures '/' !in Digits(n) && ':' !in Digits(n) && '@' !in Digits(n)
  {
  }

  lemma PrintParts(e: Endpoint)
    ensures SCHEME <= Print(e)
    ensures Print(e)[|SCHEME|..] == UserPart(e) + HostPort(e) + ['/'] + Render(e.db)
  {
    assert Print(e) == SCHEME + (UserPart(e) + HostPort(e) + ['/'] + Render(e.db));
  }

  lemma ParseHostPortOf(e: Endpoint)
    ensures ParseHostPort(HostPort(e)) == Some((e.host, e.port))
  {
    DigitsPlain(e.port);
    assert HostPort(e) == e.host + [':'] + Digits(e.port);
    RSplitOnceOf(e.host, Digits(e.port), ':');
    ParseU16OfDigits(e.port);
  }

  lemma ParseDbOf(e: Endpoint)
    ensures ParseDb(Render(e.db)) == Some(e.db)
  {
    RenderSign(e.db);
    ParseI64OfRender(e.db);
  }

  lemma PasswordRead(password: string)
    ensures PasswordOf(":" + password) == if password == "" then None else Some(password)
  {
    assert ":" + password == "" + [':'] + password;
    SplitOnceOf("", password, ':');
  }

  // The authority is read back from its two parts when the host has no `@`.
  lemma ParseAuthorityOf(e: Endpoint)
    requires '@' !in e.host && e.host != ""
    ensures ParseAuthority(UserPart(e) + HostPort(e), Render(e.db))
            == Some(e.(password := if e.password == Some("") then None else e.password))
  {
    DigitsPlain(e.port);
    ParseHostPortOf(e);
    ParseDbOf(e);
    assert '@' !in HostPort(e);
    hide ParseHostPort, ParseDb;
    match e.password
    case None => assert UserPart(e) + HostPort(e) == HostPort(e);
    case Some(password) =>
      assert UserPart(e) + HostPort(e) == (":" + password) + ['@'] + HostPort(e);
      RSplitOnceOf(":" + password, HostPort(e), '@');
      PasswordRead(password);
  }

  // A path that holds another slash is no database number.
  lemma NoSuchDb(path: string)
    requires '/' in path
    ensures ParseDb(path) == None
  {
    assert path == [path[0]] + path[1..];
    var unsigned := if path[0] == '-' || path[0] == '+' then path[1..] else path;
    assert '/' in unsigned;
  }

  // A slash before the one that ends the authority breaks the URL.
  lemma SlashBreaks(e: Endpoint)
    requires '/' in UserPart(e) + HostPort(e)
    ensures Parse(Print(e)) == None
  {
    PrintParts(e);
    hide UserPart, HostPort, Render, Print, ParseAuthority, ParseDb;
    var front, db := UserPart(e) + HostPort(e), Render(e.db);
    var (a, b) := SplitOnce(front, '/').value;
    var path := b + ['/'] + db;
    assert front + ['/'] + db == a + ['/'] + path;
    SplitOnceOf(a, path, '/');
    NoSuchDb(path);
    assert Parse(Print(e)) == ParseAuthority(a, path);
    DbNeeded(a, path);
  }

  lemma DbNeeded(authority: string, path: string)
    requires ParseDb(path) == None
    ensures ParseAuthority(authority, path) == None
  {
    hide ParseDb, ParseHostPort, PasswordOf, RSplitOnce;
  }

  lemma NoSlash(e: Endpoint)
    ensures '/' in UserPart(e) + HostPort(e) <==>
            '/' in e.host || (e.password.Some? && '/' in e.password.value)
  {
    DigitsPlain(e.port);
  }

  // Of a host with an `@` only what follows the last one is read back.
  lemma AtSignShortensHost(e: Endpoint, path: string)
    requires '@' in e.host
    ensures var r := ParseAuthority(UserPart(e) + HostPort(e), path);
            r.Some? ==> |r.value.host| < |e.host|
  {
    DigitsPlain(e.port);
    var (a, b) := RSplitOnce(e.host, '@').value;
    var shorter := e.(host := b);
    assert UserPart(e) + HostPort(e) == (UserPart(e) + a) + ['@'] + HostPort(shorter);
    RSplitOnceOf(UserPart(e) + a, HostPort(shorter), '@');
    ParseHostPortOf(shorter);
  }

  lemma EmptyHostRejected(e: Endpoint, path: string)
    requires e.host == ""
    ensures ParseAuthority(UserPart(e) + HostPort(e), path) == None
  {
    DigitsPlain(e.port);
    ParseHostPortOf(e);
    match e.password
    case None => assert UserPart(e) + HostPort(e) == HostPort(e);
    case Some(password) =>
      assert UserPart(e) + HostPort(e) == (":" + password) + ['@'] + HostPort(e);
      RSplitOnceOf(":" + password, HostPort(e), '@');
  }

  // Parsing the canonical URL gives the endpoint back exactly if its host is
  // not empty and without `/` and `@`, and its password, if any, not empty and
  // without `/`.
  lemma RoundTripIff(e: Endpoint)
    ensures Parse(Print(e)) == Some(e) <==> Printable(e)
  {
    NoSlash(e);
    var front := UserPart(e) + HostPort(e);
    if '/' in front {
      SlashBreaks(e);
    } else {
      PrintParts(e);
      SplitOnceOf(front, Render(e.db), '/');
      hide UserPart, HostPort, Render, ParseAuthority, Print;
      assert Parse(Print(e)) == ParseAuthority(front, Render(e.db));
      if e.host == "" {
        EmptyHostRejected(e, Render(e.db));
      } else if '@' in e.host {
        AtSignShortensHost(e, Render(e.db));
      } else {
        ParseAuthorityOf(e);
      }
    }
  }
}
