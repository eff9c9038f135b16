/**
 * The cache-URL parser: `parse(url)` splits the URL, looks its scheme up in
 * `CACHE_TYPES` and builds one flat cache configuration (`BACKEND`,
 * `LOCATION`, `KEY_PREFIX`, `OPTIONS`) by one of four scheme families;
 * `config` applies it to a looked-up setting with a fallback.
 */
module CacheUrl {
  import opened Results
  import opened Text
  import opened Numbers
  import opened Url
  import opened CacheTypes

  /** `LOCATION`: one string, or the list of hosts of a comma-separated netloc. */
  datatype Location = Single(target: string) | Many(targets: seq<string>)

  /** `OPTIONS`, with the two keys the parser may set. */
  datatype Options = Options(parserClass: Option<string>, password: Option<string>)

  /** The configuration dictionary; `None` is a key that is not set. */
  datatype CacheConfig = CacheConfig(backend: string, location: Location, keyPrefix: Option<string>, options: Option<Options>)

  /** The exceptions `parse` lets escape. */
  datatype ParseError =
    | UnknownScheme(scheme: string)   // KeyError on CACHE_TYPES
    | MissingDatabase                 // IndexError: redis network form with no path segment
    | NoSocketMarker                  // unbound `database`: unix form with no .sock/.socket segment
    | NothingAfterSocket              // TypeError joining None: unix form ending at its marker
    | MissingPathSlash                // IndexError: django-redis path without a `/`

  /** The fallback `config` uses when no setting is given. */
  const DEFAULT_URL := "locmem://"

  /** Python's `s[n:]` for non-negative `n`: empty when `s` is shorter. */
  function Drop(s: string, n: nat): (r: string)
    ensures |s| <= n ==> r == ""
    ensures n < |s| ==> s == s[..n] + r
  {
    if |s| <= n then "" else s[n..]
  }

  // ---------------------------------------------------------------------------
  // Simple schemes: db, dummy, locmem, memcached, djangopylibmc, pymemcached

  function ParseSimple(u: UrlParts, backend: string): CacheConfig
  {
    var hosts := Split(u.netloc, ',');
    CacheConfig(backend, if |hosts| > 1 then Many(hosts) else Single(u.netloc), Some(Drop(u.path, 1)), None)
  }

  // ---------------------------------------------------------------------------
  // Direct redis schemes: redis, hiredis

  /** `OPTIONS` of the redis-cache adapter; absent when it would be empty. */
  function RedisOptions(hiredis: bool, password: Option<string>): (r: Option<Options>)
    ensures r.None? <==> !hiredis && password.None?
    ensures r.Some? ==> r.value.password == password && (r.value.parserClass.Some? <==> hiredis)
    ensures r.Some? && hiredis ==> r.value.parserClass == Some(HIREDIS_PARSER)
  {
    if hiredis || password.Some? then Some(Options(if hiredis then Some(HIREDIS_PARSER) else None, password)) else None
  }

  /** `userpass, hostport = netloc.split('@')`, falling back to `('', netloc)` unless there are exactly two pieces. */
  function SplitUserInfo(netloc: string): (string, string)
  {
    var pieces := Split(netloc, '@');
    if |pieces| == 2 then (pieces[0], pieces[1]) else ("", netloc)
  }

  /** The password bound by `username, password = userpass.split(':')`, kept only when it is not empty. */
  function Password(userpass: string): Option<string>
  {
    var pieces := Split(userpass, ':');
    if |pieces| == 2 && pieces[1] != "" then Some(pieces[1]) else None
  }

  /** The network form `[user:password@]host:port/db[/prefix...]`. */
  function ParseRedisNetwork(u: UrlParts, backend: string, hiredis: bool): Result<CacheConfig, ParseError>
  {
    var (userpass, hostport) := SplitUserInfo(u.netloc);
    var segments := Segments(u.path);
    if segments == [] then Err(MissingDatabase)
    else Ok(CacheConfig(backend, Single(hostport + ":" + segments[0]), Some(Join(segments[1..], '/')),
                        RedisOptions(hiredis, Password(userpass))))
  }

  /** A segment that names a socket file. */
  predicate IsSocketFile(bit: string)
  {
    EndsWith(bit, ".sock") || EndsWith(bit, ".socket")
  }

  /** The 1-based position of the first socket-file segment, as `enumerate(bits, 1)` numbers it. */
  function SocketEnd(bits: seq<string>): (r: Option<nat>)
    ensures r.Some? ==> 1 <= r.value <= |bits| && IsSocketFile(bits[r.value - 1])
    ensures r.Some? ==> forall j :: 0 <= j < r.value - 1 ==> !IsSocketFile(bits[j])
    ensures r.None? <==> forall j :: 0 <= j < |bits| ==> !IsSocketFile(bits[j])
  {
    if bits == [] then None
    else if IsSocketFile(bits[0]) then Some(1)
    else match SocketEnd(bits[1..])
      case None => None
      case Some(i) => Some(i + 1)
  }

  /** The scan of `bits` for the end of the socket path: the loop that sets `location_index` and breaks. */
  method FindSocketEnd(bits: seq<string>) returns (locationIndex: Option<nat>)
    ensures locationIndex == SocketEnd(bits)
  {
    locationIndex := None;
    var index := 1;
    while index <= |bits|
      invariant 1 <= index <= |bits| + 1
      invariant forall j :: 0 <= j < index - 1 ==> !IsSocketFile(bits[j])
    {
      if IsSocketFile(bits[index - 1]) {
        locationIndex := Some(index);
        break;
      }
      index := index + 1;
    }
  }

  /**
   * The socket path, database and prefix segments of the unix form: the
   * segments up to the first socket file, then an integer database (0 when
   * the next segment is not one) and the rest. It fails without a socket
   * file or with nothing after it.
   */
  function UnixSocketParts(bits: seq<string>): Result<(seq<string>, int, seq<string>), ParseError>
  {
    match SocketEnd(bits)
    case None => Err(NoSocketMarker)
    case Some(locationIndex) =>
      var location := bits[..locationIndex];
      var rest := bits[locationIndex..];
      if rest == [] then Err(NothingAfterSocket)
      else match ParseInt(rest[0])
        case Some(n) => Ok((location, n, rest[1..]))
        case None => Ok((location, 0, rest))
  }

  /** `':'.join((netloc, '/' + '/'.join(location), str(database)))`. */
  function UnixLocation(netloc: string, location: seq<string>, database: int): string
  {
    netloc + ":" + "/" + Join(location, '/') + ":" + IntToString(database)
  }

  /** The unix-socket form `unix/path/to/file.sock[/db][/prefix...]`. */
  function ParseRedisUnix(u: UrlParts, backend: string, hiredis: bool): Result<CacheConfig, ParseError>
  {
    match UnixSocketParts(Segments(u.path))
    case Err(e) => Err(e)
    case Ok((location, database, prefix)) =>
      Ok(CacheConfig(backend, Single(UnixLocation(u.netloc, location, database)),
                     Some(Join(prefix, '/')), RedisOptions(hiredis, None)))
  }

  // ---------------------------------------------------------------------------
  // django-redis schemes: djredis, djrediss, djhiredis, djhirediss, djredisunix, djhiredisunix

  /** The scheme of the rewritten URL and whether the hiredis parser is asked for. */
  function DjTarget(scheme: string): (string, bool)
  {
    var afterDj := Drop(scheme, 2);
    var hiredis := StartsWith(afterDj, "hi");
    var trimmed := if hiredis then Drop(afterDj, 2) else afterDj;
    (if Contains(scheme, "unix") then "unix" else trimmed, hiredis)
  }

  /** `db` and `prefix` as the query gives them: `db` is unset unless `parse_qs` found some field. */
  function QueryDbPrefix(query: string): (Option<string>, string)
  {
    var pairs := QueryPairs(query);
    if pairs == [] then (None, "")
    else (Some(QueryValueOr(pairs, "db", "0")), QueryValueOr(pairs, "prefix", ""))
  }

  /** The `OPTIONS` of the django-redis adapter. */
  function DjOptions(hiredis: bool): Option<Options>
  {
    if hiredis then Some(Options(Some(HIREDIS_PARSER), None)) else None
  }

  /** `url.netloc or '@'`. */
  function DjNetloc(netloc: string): string
  {
    if netloc == "" then "@" else netloc
  }

  /**
   * `db`, `prefix` and the path of the django-redis form: taken from the
   * query, except that a non-unix scheme with a non-empty path `lead/db[/prefix]`
   * takes them from the path and drops it. A non-empty path without `/` fails.
   */
  function DjSettings(u: UrlParts): Result<(Option<string>, string, string), ParseError>
  {
    var (queryDb, queryPrefix) := QueryDbPrefix(u.query);
    if Contains(u.scheme, "unix") || u.path == "" then Ok((queryDb, queryPrefix, u.path))
    else
      var pathParts := SplitAtMost(u.path, '/', 2);
      if |pathParts| < 2 then Err(MissingPathSlash)
      else Ok((if pathParts[1] == "" then None else Some(pathParts[1]),
               if |pathParts| == 3 then pathParts[2] else queryPrefix,
               ""))
  }

  /** The `LOCATION` of the django-redis form: `scheme://netloc/path?db=<db>`, the query only for a non-empty `db`. */
  function DjLocation(scheme: string, netloc: string, path: string, db: Option<string>): string
  {
    var dbQuery := if db.Some? && db.value != "" then "db=" + db.value else "";
    UnsplitUrl(UrlParts(scheme, DjNetloc(netloc), path, dbQuery, ""))
  }

  /** The django-redis form: the settings are re-encoded as a connection URL. */
  function ParseDjRedis(u: UrlParts, backend: string): Result<CacheConfig, ParseError>
  {
    var (newScheme, hiredis) := DjTarget(u.scheme);
    match DjSettings(u)
    case Err(e) => Err(e)
    case Ok((db, prefix, path)) =>
      Ok(CacheConfig(backend, Single(DjLocation(newScheme, u.netloc, path, db)), Some(prefix), DjOptions(hiredis)))
  }

  // ---------------------------------------------------------------------------
  // parse and config

  /**
   * The dispatch of `parse` on a registered scheme, whose backend is
   * `backend`: each failure comes from the branch of its family.
   */
  function ParseKnown(u: UrlParts, backend: string): (r: Result<CacheConfig, ParseError>)
    ensures r.Ok? ==> r.value.backend == backend
    ensures r.Err? ==> !r.error.UnknownScheme?
    ensures r == Err(MissingDatabase) ==> u.scheme in REDIS_SCHEMES && u.netloc != "unix"
    ensures r == Err(NoSocketMarker) || r == Err(NothingAfterSocket) ==> u.scheme in REDIS_SCHEMES && u.netloc == "unix"
    ensures r == Err(MissingPathSlash) ==> u.scheme in DJ_REDIS_SCHEMES
  {
    if u.scheme == "file" then Ok(CacheConfig(backend, Single(u.path), None, None))
    else if u.scheme in DJ_REDIS_SCHEMES then ParseDjRedis(u, backend)
    else if u.scheme in REDIS_SCHEMES then
      if u.netloc == "unix" then ParseRedisUnix(u, backend, u.scheme == "hiredis")
      else ParseRedisNetwork(u, backend, u.scheme == "hiredis")
    else Ok(ParseSimple(u, backend))
  }

  /** `parse(url)`: an unregistered scheme is the only failure before the dispatch. */
  function Parse(url: string): (r: Result<CacheConfig, ParseError>)
    ensures SplitUrl(url).scheme !in CACHE_TYPES <==> r == Err(UnknownScheme(SplitUrl(url).scheme))
    ensures r.Ok? ==> SplitUrl(url).scheme in CACHE_TYPES && r.value.backend == CACHE_TYPES[SplitUrl(url).scheme]
  {
    var u := SplitUrl(url);
    if u.scheme !in CACHE_TYPES then Err(UnknownScheme(u.scheme))
    else ParseKnown(u, CACHE_TYPES[u.scheme])
  }

  /**
   * `config(env, default)` with the environment lookup done by the caller:
   * `setting` is the variable's value, `None` when it is not set. An empty
   * value gives the empty configuration; `None` stands for `{}`.
   */
  function Config(setting: Option<string>, default: string): (r: Result<Option<CacheConfig>, ParseError>)
    ensures r == Ok(None) <==> setting == Some("") || (setting == None && default == "")
  {
    var s := match setting case Some(v) => v case None => default;
    if s == "" then Ok(None)
    else match Parse(s)
      case Ok(c) => Ok(Some(c))
      case Err(e) => Err(e)
  }
}
