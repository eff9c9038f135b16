/** What `parse` and `config` promise, family by family. */
module CacheUrlProperties {
  import opened Results
  import opened Text
  import opened Numbers
  import opened Url
  import opened CacheTypes
  import opened CacheUrl

  // ---------------------------------------------------------------------------
  // file

  /** `file` yields exactly `BACKEND` and `LOCATION`, the location being the path verbatim. */
  lemma FileConfig(url: string)
    requires SplitUrl(url).scheme == "file"
    ensures Parse(url) == Ok(CacheConfig(FILE_BASED_CACHE, Single(SplitUrl(url).path), None, None))
  {
  }

  // ---------------------------------------------------------------------------
  // simple schemes

  /** Registered simple schemes are parsed by the simple form with their own backend. */
  lemma SimpleParse(url: string)
    requires SplitUrl(url).scheme in SIMPLE_SCHEMES
    ensures SplitUrl(url).scheme in CACHE_TYPES
    ensures Parse(url) == Ok(ParseSimple(SplitUrl(url), CACHE_TYPES[SplitUrl(url).scheme]))
  {
    FamiliesCoverRegistry();
    FamiliesDisjoint();
  }

  /**
   * The simple form: the location is the netloc, split into the ordered list
   * of its comma-separated hosts when it holds a comma; the key prefix is the
   * path without its first character; no options.
   */
  lemma ParseSimpleShape(u: UrlParts, backend: string)
    ensures var c := ParseSimple(u, backend);
      && c.backend == backend
      && c.options == None
      && c.keyPrefix.Some?
      && (u.path == "" ==> c.keyPrefix.value == "")
      && (u.path != "" ==> u.path == [u.path[0]] + c.keyPrefix.value)
      && (',' !in u.netloc ==> c.location == Single(u.netloc))
      && (',' in u.netloc ==>
            && c.location.Many?
            && |c.location.targets| == Count(u.netloc, ',') + 1
            && Join(c.location.targets, ',') == u.netloc
            && forall i :: 0 <= i < |c.location.targets| ==> ',' !in c.location.targets[i])
  {
    CountZero(u.netloc, ',');
    JoinSplit(u.netloc, ',');
  }

  /**
   * A simple scheme never fails; its location is the netloc, split into the
   * ordered list of its comma-separated hosts when it holds a comma; its key
   * prefix is the path without its first character; it sets no options.
   */
  lemma SimpleSchemeConfig(url: string)
    requires SplitUrl(url).scheme in SIMPLE_SCHEMES
    ensures var u := SplitUrl(url);
      && Parse(url).Ok?
      && Parse(url).value.backend == CACHE_TYPES[u.scheme]
      && Parse(url).value.options == None
      && Parse(url).value.keyPrefix.Some?
      && (u.path == "" ==> Parse(url).value.keyPrefix.value == "")
      && (u.path != "" ==> u.path == [u.path[0]] + Parse(url).value.keyPrefix.value)
      && (',' !in u.netloc ==> Parse(url).value.location == Single(u.netloc))
      && (',' in u.netloc ==>
            && Parse(url).value.location.Many?
            && |Parse(url).value.location.targets| == Count(u.netloc, ',') + 1
            && Join(Parse(url).value.location.targets, ',') == u.netloc
            && forall i :: 0 <= i < |Parse(url).value.location.targets| ==> ',' !in Parse(url).value.location.targets[i])
  {
    var u := SplitUrl(url);
    SimpleParse(url);
    ParseSimpleShape(u, CACHE_TYPES[u.scheme]);
  }

  // ---------------------------------------------------------------------------
  // redis and hiredis

  /** `OPTIONS['PARSER_CLASS']`, when set. */
  function ParserClassOf(c: CacheConfig): Option<string>
  {
    match c.options
    case None => None
    case Some(o) => o.parserClass
  }

  /** `OPTIONS['PASSWORD']`, when set. */
  function PasswordOf(c: CacheConfig): Option<string>
  {
    match c.options
    case None => None
    case Some(o) => o.password
  }

  /** Registered redis schemes are parsed by the unix form for the netloc `unix` and by the network form otherwise. */
  lemma RedisParse(url: string)
    requires SplitUrl(url).scheme in REDIS_SCHEMES
    ensures var u := SplitUrl(url);
      Parse(url) == if u.netloc == "unix" then ParseRedisUnix(u, REDIS_CACHE, u.scheme == "hiredis")
                    else ParseRedisNetwork(u, REDIS_CACHE, u.scheme == "hiredis")
  {
    FamiliesDisjoint();
    SharedBackends();
  }

  /**
   * The redis-cache options: the hiredis parser exactly for `hiredis`, never
   * a password in the unix form, and no `OPTIONS` key when neither is set.
   */
  lemma RedisOptionsShape(url: string)
    requires SplitUrl(url).scheme in REDIS_SCHEMES
    requires Parse(url).Ok?
    ensures var u := SplitUrl(url);
      && Parse(url).value.backend == REDIS_CACHE
      && ParserClassOf(Parse(url).value) == (if u.scheme == "hiredis" then Some(HIREDIS_PARSER) else None)
      && (u.netloc == "unix" ==> PasswordOf(Parse(url).value) == None)
      && (Parse(url).value.options.None? <==> ParserClassOf(Parse(url).value).None? && PasswordOf(Parse(url).value).None?)
  {
    RedisParse(url);
  }

  /**
   * The network form fails exactly when the path has no non-empty segment;
   * otherwise the first segment is the database after the host part and the
   * others, joined by `/`, are the key prefix. Without exactly one `@` the
   * host part is the whole netloc and there is no password.
   */
  lemma RedisNetworkForm(url: string)
    requires SplitUrl(url).scheme in REDIS_SCHEMES && SplitUrl(url).netloc != "unix"
    ensures var u := SplitUrl(url);
      var segments := Segments(u.path);
      && (segments == [] <==> Parse(url) == Err(MissingDatabase))
      && (segments != [] ==>
            && Parse(url).Ok?
            && Parse(url).value.keyPrefix == Some(Join(segments[1..], '/'))
            && (Count(u.netloc, '@') != 1 ==> Parse(url).value.location == Single(u.netloc + ":" + segments[0]))
            && (PasswordOf(Parse(url).value).Some? ==> Count(u.netloc, '@') == 1))
  {
    var u := SplitUrl(url);
    RedisParse(url);
  }

  /** With a user-info part before the single `@`, the location is the host part, the first segment appended. */
  lemma RedisNetworkHostPart(url: string, userinfo: string, hostport: string)
    requires SplitUrl(url).scheme in REDIS_SCHEMES && SplitUrl(url).netloc != "unix"
    requires SplitUrl(url).netloc == userinfo + "@" + hostport && '@' !in userinfo && '@' !in hostport
    requires Segments(SplitUrl(url).path) != []
    ensures Parse(url).Ok?
    ensures Parse(url).value.location == Single(hostport + ":" + Segments(SplitUrl(url).path)[0])
  {
    var u := SplitUrl(url);
    RedisParse(url);
    SplitUserInfoOf(userinfo, hostport);
  }

  lemma SplitUserInfoOf(userinfo: string, hostport: string)
    requires '@' !in userinfo && '@' !in hostport
    ensures SplitUserInfo(userinfo + "@" + hostport) == (userinfo, hostport)
  {
    SplitAppend(userinfo, hostport, '@');
    SplitNoSeparator(hostport, '@');
  }

  lemma PasswordOfUserInfo(user: string, password: string)
    requires ':' !in user && ':' !in password
    ensures Password(user + ":" + password) == if password == "" then None else Some(password)
  {
    SplitAppend(user, password, ':');
    SplitNoSeparator(password, ':');
  }

  /** `user:password@host` sets `PASSWORD` to the password, unless the password is empty. */
  lemma RedisPasswordGiven(url: string, user: string, password: string, hostport: string)
    requires SplitUrl(url).scheme in REDIS_SCHEMES && SplitUrl(url).netloc != "unix"
    requires SplitUrl(url).netloc == user + ":" + password + "@" + hostport
    requires '@' !in user && '@' !in password && '@' !in hostport && ':' !in user && ':' !in password
    requires Segments(SplitUrl(url).path) != []
    ensures Parse(url).Ok?
    ensures PasswordOf(Parse(url).value) == if password == "" then None else Some(password)
  {
    var u := SplitUrl(url);
    var userinfo := user + ":" + password;
    RedisParse(url);
    assert '@' !in userinfo;
    assert u.netloc == userinfo + "@" + hostport;
    SplitUserInfoOf(userinfo, hostport);
    PasswordOfUserInfo(user, password);
  }

  /** Conversely, a `PASSWORD` comes from a netloc of the form `user:password@host` with a non-empty password. */
  lemma RedisPasswordSource(url: string) returns (user: string, hostport: string)
    requires SplitUrl(url).scheme in REDIS_SCHEMES
    requires Parse(url).Ok? && PasswordOf(Parse(url).value).Some?
    ensures var password := PasswordOf(Parse(url).value).value;
      && SplitUrl(url).netloc == user + ":" + password + "@" + hostport
      && '@' !in user && '@' !in password && '@' !in hostport && ':' !in user && ':' !in password
      && password != ""
  {
    var u := SplitUrl(url);
    RedisOptionsShape(url);
    RedisParse(url);
    var pieces := Split(u.netloc, '@');
    assert |pieces| == 2;
    var userinfo := pieces[0];
    hostport := pieces[1];
    JoinSplit(u.netloc, '@');
    assert u.netloc == userinfo + "@" + hostport;
    var parts := Split(userinfo, ':');
    assert |parts| == 2;
    JoinSplit(userinfo, ':');
    user := parts[0];
    assert userinfo == user + ":" + parts[1];
    SplitAvoids(userinfo, ':', '@');
  }

  /** The unix form fails when no segment names a socket file. */
  lemma RedisUnixNoMarker(url: string)
    requires SplitUrl(url).scheme in REDIS_SCHEMES && SplitUrl(url).netloc == "unix"
    requires forall j :: 0 <= j < |Segments(SplitUrl(url).path)| ==> !IsSocketFile(Segments(SplitUrl(url).path)[j])
    ensures Parse(url) == Err(NoSocketMarker)
  {
    RedisParse(url);
  }

  lemma SocketEndIs(bits: seq<string>, k: nat)
    requires k < |bits| && IsSocketFile(bits[k])
    requires forall j :: 0 <= j < k ==> !IsSocketFile(bits[j])
    ensures SocketEnd(bits) == Some(k + 1)
  {
  }

  /** The socket path ends at the first socket-file segment `k`; what follows gives the database and prefix. */
  lemma UnixSocketPartsAt(bits: seq<string>, k: nat)
    requires k < |bits| && IsSocketFile(bits[k])
    requires forall j :: 0 <= j < k ==> !IsSocketFile(bits[j])
    ensures UnixSocketParts(bits) ==
      if k + 1 == |bits| then Err(NothingAfterSocket)
      else match ParseInt(bits[k + 1])
        case Some(n) => Ok((bits[..k + 1], n, bits[k + 2..]))
        case None => Ok((bits[..k + 1], 0, bits[k + 1..]))
  {
    SocketEndIs(bits, k);
    if k + 1 < |bits| {
      var rest := bits[k + 1..];
      assert rest[0] == bits[k + 1];
      assert rest[1..] == bits[k + 2..];
    }
  }

  lemma UnixLocationOf(location: seq<string>, database: int)
    ensures UnixLocation("unix", location, database) == "unix:/" + Join(location, '/') + ":" + IntToString(database)
  {
  }

  /** `ParseRedisUnix` for the netloc `unix` with its first socket-file segment at position `k`. */
  lemma RedisUnixFormOf(u: UrlParts, backend: string, hiredis: bool, k: nat)
    requires u.netloc == "unix"
    requires k < |Segments(u.path)| && IsSocketFile(Segments(u.path)[k])
    requires forall j :: 0 <= j < k ==> !IsSocketFile(Segments(u.path)[j])
    ensures var bits := Segments(u.path);
      var r := ParseRedisUnix(u, backend, hiredis);
      && (k + 1 == |bits| ==> r == Err(NothingAfterSocket))
      && (k + 1 < |bits| ==>
            var socket := "unix:/" + Join(bits[..k + 1], '/');
            && r.Ok?
            && (ParseInt(bits[k + 1]).Some? ==>
                  && r.value.location == Single(socket + ":" + IntToString(ParseInt(bits[k + 1]).value))
                  && r.value.keyPrefix == Some(Join(bits[k + 2..], '/')))
            && (ParseInt(bits[k + 1]).None? ==>
                  && r.value.location == Single(socket + ":0")
                  && r.value.keyPrefix == Some(Join(bits[k + 1..], '/'))))
  {
    var bits := Segments(u.path);
    UnixSocketPartsAt(bits, k);
    if k + 1 < |bits| {
      var (database, prefix) := if ParseInt(bits[k + 1]).Some? then (ParseInt(bits[k + 1]).value, bits[k + 2..]) else (0, bits[k + 1..]);
      assert UnixSocketParts(bits) == Ok((bits[..k + 1], database, prefix));
      UnixLocationOf(bits[..k + 1], database);
      assert IntToString(0) == "0";
    }
  }

  /**
   * The unix form with its first socket-file segment at position `k`: the
   * segments up to it are the socket path. Nothing after it is a failure.
   * Otherwise a following integer is the database (written back as
   * `str(int(...))`) and the later segments the prefix; if it is not an
   * integer the database is 0 and all later segments are the prefix.
   */
  lemma RedisUnixForm(url: string, k: nat)
    requires SplitUrl(url).scheme in REDIS_SCHEMES && SplitUrl(url).netloc == "unix"
    requires k < |Segments(SplitUrl(url).path)| && IsSocketFile(Segments(SplitUrl(url).path)[k])
    requires forall j :: 0 <= j < k ==> !IsSocketFile(Segments(SplitUrl(url).path)[j])
    ensures var bits := Segments(SplitUrl(url).path);
      && (k + 1 == |bits| ==> Parse(url) == Err(NothingAfterSocket))
      && (k + 1 < |bits| ==>
            var socket := "unix:/" + Join(bits[..k + 1], '/');
            && Parse(url).Ok?
            && (ParseInt(bits[k + 1]).Some? ==>
                  && Parse(url).value.location == Single(socket + ":" + IntToString(ParseInt(bits[k + 1]).value))
                  && Parse(url).value.keyPrefix == Some(Join(bits[k + 2..], '/')))
            && (ParseInt(bits[k + 1]).None? ==>
                  && Parse(url).value.location == Single(socket + ":0")
                  && Parse(url).value.keyPrefix == Some(Join(bits[k + 1..], '/'))))
  {
    RedisParse(url);
    RedisUnixFormOf(SplitUrl(url), REDIS_CACHE, SplitUrl(url).scheme == "hiredis", k);
  }

  // ---------------------------------------------------------------------------
  // django-redis schemes

  lemma DjTargetPlain(scheme: string, target: string)
    requires scheme == "dj" + target && target != [] && target[0] != 'h' && 'u' !in scheme
    ensures DjTarget(scheme) == (target, false) && !Contains(scheme, "unix")
  {
    assert Drop(scheme, 2) == target;
    NotStartsWith(target, "hi", 0);
    NotContainsFirst(scheme, "unix");
  }

  lemma DjTargetHiredis(scheme: string, target: string)
    requires scheme == "djhi" + target && 'u' !in scheme
    ensures DjTarget(scheme) == (target, true) && !Contains(scheme, "unix")
  {
    assert Drop(scheme, 2) == "hi" + target;
    assert Drop("hi" + target, 2) == target;
    NotContainsFirst(scheme, "unix");
  }

  lemma DjTargetUnix(scheme: string, hiredis: bool)
    requires scheme == (if hiredis then "djhiredisunix" else "djredisunix")
    ensures DjTarget(scheme) == ("unix", hiredis) && Contains(scheme, "unix")
  {
    var afterDj := if hiredis then "hiredisunix" else "redisunix";
    assert Drop(scheme, 2) == afterDj;
    if !hiredis {
      NotStartsWith(afterDj, "hi", 0);
    }
    ContainsSuffix(scheme, "unix");
  }

  /** The rewritten scheme and the hiredis flag of each django-redis scheme. */
  lemma DjTargets()
    ensures DjTarget("djredis") == ("redis", false)
    ensures DjTarget("djrediss") == ("rediss", false)
    ensures DjTarget("djhiredis") == ("redis", true)
    ensures DjTarget("djhirediss") == ("rediss", true)
    ensures DjTarget("djredisunix") == ("unix", false)
    ensures DjTarget("djhiredisunix") == ("unix", true)
  {
    DjTargetPlain("djredis", "redis");
    DjTargetPlain("djrediss", "rediss");
    DjTargetHiredis("djhiredis", "redis");
    DjTargetHiredis("djhirediss", "rediss");
    DjTargetUnix("djredisunix", false);
    DjTargetUnix("djhiredisunix", true);
  }

  /**
   * The rewrite drops `dj` and then an optional `hi`, which sets the hiredis
   * flag; a scheme containing `unix` becomes `unix`.
   */
  lemma DjTargetStrips(scheme: string)
    requires StartsWith(scheme, "dj")
    ensures var (target, hiredis) := DjTarget(scheme);
      && (hiredis <==> StartsWith(scheme, "djhi"))
      && (Contains(scheme, "unix") ==> target == "unix")
      && (!Contains(scheme, "unix") ==> scheme == "dj" + (if hiredis then "hi" else "") + target)
  {
    var afterDj := Drop(scheme, 2);
    assert scheme == "dj" + afterDj;
    if StartsWith(afterDj, "hi") {
      assert afterDj == "hi" + Drop(afterDj, 2);
      assert scheme[..4] == "djhi";
    }
  }

  /** Registered django-redis schemes are parsed by the django-redis form with the django-redis backend. */
  lemma DjParse(url: string)
    requires SplitUrl(url).scheme in DJ_REDIS_SCHEMES
    ensures Parse(url) == ParseDjRedis(SplitUrl(url), DJANGO_REDIS_CACHE)
  {
    FamiliesDisjoint();
    SharedBackends();
  }

  /** `DjSettings` fails exactly for a non-unix scheme with a non-empty path without `/`. */
  lemma DjSettingsFailure(u: UrlParts)
    ensures DjSettings(u).Err? <==> !Contains(u.scheme, "unix") && u.path != "" && '/' !in u.path
    ensures DjSettings(u).Err? ==> DjSettings(u).error == MissingPathSlash
  {
    SplitAtMostPieces(u.path, '/', 2);
  }

  /** The only failure of the django-redis form: a non-unix scheme whose non-empty path has no `/`. */
  lemma DjFailure(url: string)
    requires SplitUrl(url).scheme in DJ_REDIS_SCHEMES
    ensures var u := SplitUrl(url);
      && (Parse(url).Err? <==> !Contains(u.scheme, "unix") && u.path != "" && '/' !in u.path)
      && (Parse(url).Err? ==> Parse(url).error == MissingPathSlash)
  {
    DjParse(url);
    DjSettingsFailure(SplitUrl(url));
  }

  /** The django-redis form always sets a key prefix, and options exactly when the hiredis flag is set. */
  lemma DjRedisShape(u: UrlParts, backend: string)
    requires ParseDjRedis(u, backend).Ok?
    ensures var c := ParseDjRedis(u, backend).value;
      && c.backend == backend
      && c.keyPrefix.Some?
      && (c.options.Some? <==> DjTarget(u.scheme).1)
      && ParserClassOf(c) == (if DjTarget(u.scheme).1 then Some(HIREDIS_PARSER) else None)
      && PasswordOf(c) == None
  {
  }

  /** A django-redis configuration always has a key prefix, and options exactly for the hiredis schemes. */
  lemma DjConfigShape(url: string)
    requires SplitUrl(url).scheme in DJ_REDIS_SCHEMES
    requires Parse(url).Ok?
    ensures var u := SplitUrl(url);
      && Parse(url).value.backend == DJANGO_REDIS_CACHE
      && Parse(url).value.keyPrefix.Some?
      && (Parse(url).value.options.Some? <==> StartsWith(u.scheme, "djhi"))
      && ParserClassOf(Parse(url).value) == (if StartsWith(u.scheme, "djhi") then Some(HIREDIS_PARSER) else None)
      && PasswordOf(Parse(url).value) == None
  {
    var u := SplitUrl(url);
    DjParse(url);
    DjTargetOf(u.scheme);
    DjRedisShape(u, DJANGO_REDIS_CACHE);
  }

  lemma TargetSchemesLower()
    ensures IsLowerScheme("redis") && IsLowerScheme("rediss") && IsLowerScheme("unix")
  {
  }

  lemma DjTargetIn(scheme: string)
    requires scheme in DJ_REDIS_SCHEMES
    ensures DjTarget(scheme).0 in {"redis", "rediss", "unix"}
  {
    if scheme == "djredis" {
      DjTargetPlain(scheme, "redis");
    } else if scheme == "djrediss" {
      DjTargetPlain(scheme, "rediss");
    } else if scheme == "djhiredis" {
      DjTargetHiredis(scheme, "redis");
    } else if scheme == "djhirediss" {
      DjTargetHiredis(scheme, "rediss");
    } else {
      DjTargetUnix(scheme, scheme == "djhiredisunix");
    }
  }

  lemma DjTargetUnixIff(scheme: string)
    requires scheme in DJ_REDIS_SCHEMES
    ensures DjTarget(scheme).0 == "unix" <==> Contains(scheme, "unix")
  {
    if scheme == "djredis" {
      DjTargetPlain(scheme, "redis");
    } else if scheme == "djrediss" {
      DjTargetPlain(scheme, "rediss");
    } else if scheme == "djhiredis" {
      DjTargetHiredis(scheme, "redis");
    } else if scheme == "djhirediss" {
      DjTargetHiredis(scheme, "rediss");
    } else {
      DjTargetUnix(scheme, scheme == "djhiredisunix");
    }
  }

  /**
   * What the rewrite gives for a registered django-redis scheme: a valid
   * lower-case scheme, the hiredis flag exactly for `djhi...`, and `unix`
   * exactly for the schemes containing `unix`.
   */
  lemma DjTargetOf(scheme: string)
    requires scheme in DJ_REDIS_SCHEMES
    ensures var (target, hiredis) := DjTarget(scheme);
      && target in {"redis", "rediss", "unix"}
      && IsLowerScheme(target)
      && (hiredis <==> StartsWith(scheme, "djhi"))
      && (target == "unix" <==> Contains(scheme, "unix"))
  {
    DjTargetStrips(scheme);
    DjTargetIn(scheme);
    TargetSchemesLower();
    DjTargetUnixIff(scheme);
  }

  /** The concatenation `UnsplitForm` writes, regrouped as `scheme://netloc` + path + query. */
  lemma LocationConcat(scheme: string, netloc: string, rooted: string, query: string)
    ensures scheme + ":" + ("//" + netloc + (rooted + query + "")) == scheme + "://" + netloc + rooted + query
  {
    assert ":" + "//" == "://";
  }

  /** The django-redis location written out: `scheme://netloc`, the rooted path, and `?db=<db>` for a non-empty `db`. */
  lemma DjLocationForm(scheme: string, netloc: string, path: string, db: Option<string>)
    requires scheme != ""
    ensures DjLocation(scheme, netloc, path, db) ==
      scheme + "://" + DjNetloc(netloc) + RootedPath(path) + (if db.Some? && db.value != "" then "?db=" + db.value else "")
  {
    var dbQuery := if db.Some? && db.value != "" then "db=" + db.value else "";
    var query := if db.Some? && db.value != "" then "?db=" + db.value else "";
    assert query == if dbQuery != "" then "?" + dbQuery else "";
    UnsplitForm(UrlParts(scheme, DjNetloc(netloc), path, dbQuery, ""));
    LocationConcat(scheme, DjNetloc(netloc), RootedPath(path), query);
  }

  /** A default value that is not empty is never replaced by an empty one. */
  lemma QueryValueOrNonEmpty(query: string, name: string, default: string)
    requires default != ""
    ensures QueryValueOr(QueryPairs(query), name, default) != ""
  {
  }

  /** The query form of `ParseDjRedis`: `db` and `prefix` come from the query. */
  lemma DjRedisQueryForm(u: UrlParts, backend: string)
    requires DjTarget(u.scheme).0 != ""
    requires Contains(u.scheme, "unix") || u.path == ""
    ensures var pairs := QueryPairs(u.query);
      var r := ParseDjRedis(u, backend);
      && r.Ok?
      && r.value.keyPrefix == Some(QueryValueOr(pairs, "prefix", ""))
      && r.value.location == Single(
           DjTarget(u.scheme).0 + "://" + DjNetloc(u.netloc) + RootedPath(u.path)
           + (if pairs == [] then "" else "?db=" + QueryValueOr(pairs, "db", "0")))
  {
    var (queryDb, queryPrefix) := QueryDbPrefix(u.query);
    assert DjSettings(u) == Ok((queryDb, queryPrefix, u.path));
    QueryValueOrNonEmpty(u.query, "db", "0");
    DjLocationForm(DjTarget(u.scheme).0, u.netloc, u.path, queryDb);
  }

  /**
   * Unix schemes, and non-unix ones with an empty path, take `db` and `prefix`
   * from the query: no `db` unless the query has some non-empty field, `0` if
   * it has fields but no `db`; the location is `scheme://netloc/path?db=<db>`.
   */
  lemma DjQueryForm(url: string)
    requires SplitUrl(url).scheme in DJ_REDIS_SCHEMES
    requires Contains(SplitUrl(url).scheme, "unix") || SplitUrl(url).path == ""
    ensures var u := SplitUrl(url);
      var pairs := QueryPairs(u.query);
      && Parse(url).Ok?
      && Parse(url).value.keyPrefix == Some(QueryValueOr(pairs, "prefix", ""))
      && Parse(url).value.location == Single(
           DjTarget(u.scheme).0 + "://" + DjNetloc(u.netloc) + RootedPath(u.path)
           + (if pairs == [] then "" else "?db=" + QueryValueOr(pairs, "db", "0")))
  {
    var u := SplitUrl(url);
    DjParse(url);
    DjTargetIn(u.scheme);
    DjRedisQueryForm(u, DJANGO_REDIS_CACHE);
  }

  lemma SplitDjPath(lead: string, db: string, rest: string)
    requires '/' !in lead && '/' !in db && (rest == "" || rest[0] == '/')
    ensures SplitAtMost(lead + "/" + db + rest, '/', 2) == if rest == "" then [lead, db] else [lead, db, rest[1..]]
  {
    var tail := db + rest;
    assert lead + "/" + db + rest == lead + ['/'] + tail;
    SplitAtMostAppend(lead, tail, '/', 2);
    if rest == "" {
      assert tail == db;
      SplitAtMostNoSeparator(db, '/', 1);
    } else {
      assert rest == ['/'] + rest[1..];
      assert tail == db + ['/'] + rest[1..];
      SplitAtMostAppend(db, rest[1..], '/', 1);
      assert SplitAtMost(rest[1..], '/', 0) == [rest[1..]];
    }
  }

  /** The path form of `DjSettings`: `db` and `prefix` come from `lead/db[/prefix]`, and the path is dropped. */
  lemma DjSettingsPath(u: UrlParts, lead: string, db: string, rest: string)
    requires !Contains(u.scheme, "unix")
    requires u.path == lead + "/" + db + rest
    requires '/' !in lead && '/' !in db && (rest == "" || rest[0] == '/')
    ensures DjSettings(u) ==
      Ok((if db == "" then None else Some(db), if rest == "" then QueryDbPrefix(u.query).1 else rest[1..], ""))
  {
    SplitDjPath(lead, db, rest);
  }

  /** When the settings are found, `ParseDjRedis` builds its configuration from them and the rewritten scheme. */
  lemma DjRedisOk(u: UrlParts, backend: string)
    requires DjSettings(u).Ok?
    ensures var (db, prefix, path) := DjSettings(u).value;
      ParseDjRedis(u, backend) ==
        Ok(CacheConfig(backend, Single(DjLocation(DjTarget(u.scheme).0, u.netloc, path, db)),
                       Some(prefix), DjOptions(DjTarget(u.scheme).1)))
  {
  }

  /** The path form of `ParseDjRedis`. */
  lemma DjRedisPathForm(u: UrlParts, backend: string, lead: string, db: string, rest: string)
    requires DjTarget(u.scheme).0 != "" && !Contains(u.scheme, "unix")
    requires u.path == lead + "/" + db + rest
    requires '/' !in lead && '/' !in db && (rest == "" || rest[0] == '/')
    ensures var r := ParseDjRedis(u, backend);
      && r.Ok?
      && r.value.keyPrefix == Some(if rest == "" then QueryValueOr(QueryPairs(u.query), "prefix", "") else rest[1..])
      && r.value.location == Single(
           DjTarget(u.scheme).0 + "://" + DjNetloc(u.netloc) + (if db == "" then "" else "?db=" + db))
  {
    var dbOpt := if db == "" then None else Some(db);
    var prefix := if rest == "" then QueryDbPrefix(u.query).1 else rest[1..];
    DjSettingsPath(u, lead, db, rest);
    DjRedisOk(u, backend);
    assert ParseDjRedis(u, backend) ==
      Ok(CacheConfig(backend, Single(DjLocation(DjTarget(u.scheme).0, u.netloc, "", dbOpt)),
                     Some(prefix), DjOptions(DjTarget(u.scheme).1)));
    assert QueryDbPrefix(u.query).1 == QueryValueOr(QueryPairs(u.query), "prefix", "");
    DjLocationForm(DjTarget(u.scheme).0, u.netloc, "", dbOpt);
    var base := DjTarget(u.scheme).0 + "://" + DjNetloc(u.netloc);
    assert RootedPath("") == "" && base + "" == base;
    assert (if dbOpt.Some? && dbOpt.value != "" then "?db=" + dbOpt.value else "") ==
      (if db == "" then "" else "?db=" + db);
  }

  /**
   * A non-unix scheme with a path `lead/db[/prefix]` takes `db` and `prefix`
   * from it, `prefix` keeping any further `/`; an empty `db` leaves the
   * location without a query, and without a prefix part the query's prefix
   * stays. The path itself is dropped from the location.
   */
  lemma DjPathForm(url: string, lead: string, db: string, rest: string)
    requires SplitUrl(url).scheme in DJ_REDIS_SCHEMES && !Contains(SplitUrl(url).scheme, "unix")
    requires SplitUrl(url).path == lead + "/" + db + rest
    requires '/' !in lead && '/' !in db && (rest == "" || rest[0] == '/')
    ensures var u := SplitUrl(url);
      && Parse(url).Ok?
      && Parse(url).value.keyPrefix == Some(if rest == "" then QueryValueOr(QueryPairs(u.query), "prefix", "") else rest[1..])
      && Parse(url).value.location == Single(
           DjTarget(u.scheme).0 + "://" + DjNetloc(u.netloc) + (if db == "" then "" else "?db=" + db))
  {
    var u := SplitUrl(url);
    DjParse(url);
    DjTargetIn(u.scheme);
    DjRedisPathForm(u, DJANGO_REDIS_CACHE, lead, db, rest);
  }

  /** The django-redis location splits back into the scheme, netloc, rooted path and `db` query it was built from. */
  lemma DjLocationSplit(scheme: string, netloc: string, path: string, db: Option<string>)
    requires IsLowerScheme(scheme)
    requires forall i :: 0 <= i < |netloc| ==> netloc[i] !in AUTHORITY_END
    requires '?' !in path && '#' !in path
    requires db.Some? ==> '#' !in db.value
    ensures var p := SplitUrl(DjLocation(scheme, netloc, path, db));
      && p.scheme == scheme
      && p.netloc == DjNetloc(netloc)
      && p.path == RootedPath(path)
      && p.query == (if db.Some? && db.value != "" then "db=" + db.value else "")
      && p.fragment == ""
  {
    var dbQuery := if db.Some? && db.value != "" then "db=" + db.value else "";
    assert '#' !in dbQuery;
    SplitUnsplit(UrlParts(scheme, DjNetloc(netloc), path, dbQuery, ""));
  }

  /** `DjSettings` keeps the path or drops it, and takes no `#` into `db` from a path and query without one. */
  lemma DjSettingsAvoid(u: UrlParts)
    requires '#' !in u.path && '#' !in u.query
    requires DjSettings(u).Ok?
    ensures var (db, _, path) := DjSettings(u).value;
      && (db.Some? ==> '#' !in db.value)
      && path == (if Contains(u.scheme, "unix") || u.path == "" then u.path else "")
  {
    QueryPairsAvoid(u.query, '#');
    SplitAtMostAvoids(u.path, '/', 2, '#');
  }

  /** The location `ParseDjRedis` builds splits back into its parts. */
  lemma DjRedisLocation(u: UrlParts, backend: string)
    requires IsLowerScheme(DjTarget(u.scheme).0)
    requires forall i :: 0 <= i < |u.netloc| ==> u.netloc[i] !in AUTHORITY_END
    requires '#' !in u.path && '?' !in u.path && '#' !in u.query
    requires ParseDjRedis(u, backend).Ok?
    ensures var p := SplitUrl(ParseDjRedis(u, backend).value.location.target);
      && ParseDjRedis(u, backend).value.location.Single?
      && p.scheme == DjTarget(u.scheme).0
      && p.netloc == DjNetloc(u.netloc)
      && p.path == (if Contains(u.scheme, "unix") || u.path == "" then RootedPath(u.path) else "")
      && (p.query == "" || (StartsWith(p.query, "db=") && |p.query| > 3))
      && p.fragment == ""
  {
    DjSettingsAvoid(u);
    var (db, _, path) := DjSettings(u).value;
    DjLocationSplit(DjTarget(u.scheme).0, u.netloc, path, db);
    assert RootedPath("") == "";
  }

  /**
   * The django-redis location is itself a URL: splitting it gives back the
   * rewritten scheme, the netloc (`@` when empty), the path for unix schemes
   * and a query that is empty or `db=` with a non-empty value.
   */
  lemma DjLocationRoundTrip(url: string)
    requires SplitUrl(url).scheme in DJ_REDIS_SCHEMES
    requires Parse(url).Ok?
    ensures var u := SplitUrl(url);
      var p := SplitUrl(Parse(url).value.location.target);
      && Parse(url).value.location.Single?
      && p.scheme == DjTarget(u.scheme).0
      && p.netloc == DjNetloc(u.netloc)
      && p.path == (if Contains(u.scheme, "unix") then RootedPath(u.path) else "")
      && (p.query == "" || (StartsWith(p.query, "db=") && |p.query| > 3))
      && p.fragment == ""
  {
    var u := SplitUrl(url);
    DjParse(url);
    DjTargetOf(u.scheme);
    DjRedisLocation(u, DJANGO_REDIS_CACHE);
    assert RootedPath("") == "";
  }

  // ---------------------------------------------------------------------------
  // failures and config

  /**
   * A failure after the dispatch names its cause: no path segment (redis network form), no
   * socket-file segment or none after it (unix form), a slash-free path (django-redis).
   */
  lemma KnownFailures(u: UrlParts, backend: string)
    requires ParseKnown(u, backend).Err?
    ensures match ParseKnown(u, backend).error
      case UnknownScheme(_) => false
      case MissingDatabase => u.scheme in REDIS_SCHEMES && u.netloc != "unix" && Segments(u.path) == []
      case NoSocketMarker => u.scheme in REDIS_SCHEMES && u.netloc == "unix" && SocketEnd(Segments(u.path)).None?
      case NothingAfterSocket =>
        u.scheme in REDIS_SCHEMES && u.netloc == "unix" && SocketEnd(Segments(u.path)) == Some(|Segments(u.path)|)
      case MissingPathSlash => u.scheme in DJ_REDIS_SCHEMES && u.path != "" && '/' !in u.path
  {
    if u.scheme != "file" && u.scheme in DJ_REDIS_SCHEMES {
      DjSettingsFailure(u);
    }
  }

  /** Every failure of `parse` names its cause: an unregistered scheme, or the branch of the scheme's family. */
  lemma ParseFailures(url: string)
    requires Parse(url).Err?
    ensures var u := SplitUrl(url);
      match Parse(url).error
      case UnknownScheme(scheme) => scheme == u.scheme && u.scheme !in CACHE_TYPES
      case MissingDatabase => u.scheme in REDIS_SCHEMES && u.netloc != "unix" && Segments(u.path) == []
      case NoSocketMarker => u.scheme in REDIS_SCHEMES && u.netloc == "unix" && SocketEnd(Segments(u.path)).None?
      case NothingAfterSocket =>
        u.scheme in REDIS_SCHEMES && u.netloc == "unix" && SocketEnd(Segments(u.path)) == Some(|Segments(u.path)|)
      case MissingPathSlash => u.scheme in DJ_REDIS_SCHEMES && u.path != "" && '/' !in u.path
  {
    var u := SplitUrl(url);
    if u.scheme in CACHE_TYPES {
      assert Parse(url) == ParseKnown(u, CACHE_TYPES[u.scheme]);
      KnownFailures(u, CACHE_TYPES[u.scheme]);
    }
  }

  /** An unset variable falls back to the default URL. */
  lemma ConfigUnset(default: string)
    ensures Config(None, default) == Config(Some(default), default)
  {
  }

  /** A set but empty variable gives the empty configuration, whatever the default. */
  lemma ConfigEmpty(default: string)
    ensures Config(Some(""), default) == Ok(None)
  {
  }

  /** A non-empty value is parsed: `config` succeeds exactly when `parse` does, with the same result or failure. */
  lemma ConfigParses(value: string, default: string)
    requires value != ""
    ensures Config(Some(value), default).Ok? <==> Parse(value).Ok?
    ensures Parse(value).Ok? ==> Config(Some(value), default) == Ok(Some(Parse(value).value))
    ensures Parse(value).Err? ==> Config(Some(value), default) == Err(Parse(value).error)
  {
  }

  /** `urlsplit("locmem://")`: scheme `locmem` and nothing else. */
  lemma SplitDefaultUrl()
    ensures SplitUrl(DEFAULT_URL) == UrlParts("locmem", "", "", "", "")
  {
    TargetSchemesLower();
    assert IsLowerScheme("locmem");
    assert DEFAULT_URL == "locmem" + ":" + "//";
    SplitSchemeOf("locmem", "//");
    SplitNetlocOf("", "");
    CutAbsent("", '#');
    CutAbsent("", '?');
  }

  /** A URL with scheme `locmem` and no other component gives the local-memory cache with empty location and prefix. */
  lemma ParseBareLocmem(url: string)
    requires SplitUrl(url) == UrlParts("locmem", "", "", "", "")
    ensures Parse(url) == Ok(CacheConfig(LOC_MEM_CACHE, Single(""), Some(""), None))
  {
    SimpleParse(url);
    ParseSimpleShape(SplitUrl(url), LOC_MEM_CACHE);
  }

  /** `parse("locmem://")`. */
  lemma ParseDefault()
    ensures Parse(DEFAULT_URL) == Ok(CacheConfig(LOC_MEM_CACHE, Single(""), Some(""), None))
  {
    SplitDefaultUrl();
    ParseBareLocmem(DEFAULT_URL);
  }

  /** With the variable unset, `config` gives the local-memory cache of the default `locmem://`. */
  lemma ConfigDefault()
    ensures Config(None, DEFAULT_URL) == Ok(Some(CacheConfig(LOC_MEM_CACHE, Single(""), Some(""), None)))
  {
    ConfigUnset(DEFAULT_URL);
    ConfigParses(DEFAULT_URL, DEFAULT_URL);
    ParseDefault();
  }
}
