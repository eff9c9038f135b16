# django-cache-url, modelled in Dafny

This project models the cache-URL parser of `django_cache_url.py`.

- `parse(url)` splits a URL such as `redis://:secret@host:6379/1/prefix`.
- It looks the scheme up in the static `CACHE_TYPES` table of fifteen schemes.
- It builds one flat Django cache-configuration record: `BACKEND`, `LOCATION`, `KEY_PREFIX`, `OPTIONS`.
- It builds the record by one of four scheme families:
  - `file`;
  - the six django-redis schemes (`djredis`, `djrediss`, `djhiredis`, `djhirediss`, `djredisunix`, `djhiredisunix`), whose settings are re-encoded as a connection URL;
  - `redis`/`hiredis`, in a network form and a unix-socket form;
  - the simple schemes (`db`, `dummy`, `locmem`, `memcached`, `djangopylibmc`, `pymemcached`).
- `config` applies `parse` to an environment setting, falling back to `locmem://`.

## Modules

The model is pure: `Parse` and `Config` are functions returning a `Result`. Where Python raises, the result is an error case.

- `Results` (`results.dfy`): `Option` and `Result`.
- `Text` (`text.dfy`): the Python string operations the parser uses. These are `str.split` (with and without `maxsplit`), `sep.join`, `filter(None, …)`, `startswith`, `endswith`, substring `in`, `count` and ASCII `lower`. Each comes with its algebra: join undoes split, split undoes join, and so on.
- `Numbers` (`numbers.dfy`): `int(text)` on an optional sign and ASCII digits, and `str(n)`. Lemmas cover the round trip and the respelling of a leading zero.
- `Url` (`url.dfy`):
  - a URL splitter in the form of section 3 of RFC 3986, cut the way Python's `urlsplit` cuts (scheme lower-cased, authority after `//`, fragment then query);
  - the `urlunsplit` rule for a non-empty authority;
  - the part of `parse_qs` the parser reads: fields without `=` or with an empty value are dropped, and the first value wins.
- `CacheTypes` (`cache_types.dfy`): the `CACHE_TYPES` table and the four scheme families.
- `CacheUrl` (`cache_url.dfy`):
  - `Parse`, `Config` and the family parsers;
  - the scan for the socket file, both as a recursive first-match function `SocketEnd` and as the loop `FindSocketEnd` proved equal to it.
- `CacheUrlProperties` (`cache_url_properties.dfy`): what `parse` and `config` promise, family by family. Each family is proved in two layers: the property of the family parser on split parts, and its consequence for `Parse(url)`.

### Failures

`Parse` fails in exactly the five places where the code of `parse` itself raises, apart from the URL-library errors listed under "Left out":

| error | where the Python code raises |
|---|---|
| `UnknownScheme` | `KeyError` on the table lookup, l.67 |
| `MissingDatabase` | `IndexError` on `path[0]`: a redis network URL with no non-empty path segment, l.166 |
| `NoSocketMarker` | unbound `database`: a unix-socket URL with no segment ending in `.sock` or `.socket`, l.149 |
| `NothingAfterSocket` | `'/'.join(None)`: the socket segment is the last one, l.152 |
| `MissingPathSlash` | `IndexError` on `db_prefix[1]`: a non-unix django-redis URL whose path is non-empty but holds no `/`, such as `djredis:foo`, l.99 |

In two places the model follows the code rather than a design statement:

- The comment at l.130 says that with no socket-file segment "the whole location" is used. The code instead reaches l.149 with `database` unbound and raises, so the model returns `NoSocketMarker`.
- The code has no error for a URL that is not URL-shaped. The splitter modelled here accepts every string, so the model has no such error. The errors `urlsplit` raises itself are among the URL-library details left out. One example is a bad bracketed IPv6 netloc such as `redis://[::1:6379/0`.

## Model

| member | source | states |
|---|---|---|
| Text.CountZero | django_cache_url.py:184-188 | a character occurs nowhere in a string exactly when its count is zero (so more than one comma-piece means a comma is present) |
| Text.Find | django_cache_url.py:65 | the index returned is the first character in the set; none is returned only when no character is in it |
| Text.FindIs | django_cache_url.py:65 | the first matching index is the only answer `Find` can give |
| Text.FindNone | django_cache_url.py:65 | with no matching character `Find` returns none |
| Text.Split | django_cache_url.py:122 | `str.split(c)` gives one more piece than there are separators, and no piece contains the separator |
| Text.SplitAvoids | django_cache_url.py:156-161 | a character absent from a string is absent from every piece of its split |
| Text.JoinCons | django_cache_url.py:148-152 | joining a piece before a non-empty list puts exactly one separator between them |
| Text.JoinExtendFirst | django_cache_url.py:148-152 | extending the first piece extends the joined string by the same prefix |
| Text.JoinSplit | django_cache_url.py:184-186 | joining the pieces of a split with its separator gives the original string back |
| Text.SplitNoSeparator | django_cache_url.py:156-158 | a string without the separator splits into itself alone |
| Text.SplitAppend | django_cache_url.py:156-161 | the first piece of a split ends at the first separator |
| Text.SplitJoin | django_cache_url.py:148-152 | splitting a join of separator-free pieces gives the pieces back |
| Text.SplitAtMost | django_cache_url.py:98 | `str.split(c, maxsplit)` gives between one and `maxsplit + 1` pieces |
| Text.SplitAtMostNoSeparator | django_cache_url.py:98-99 | a string without the separator is one piece, whatever `maxsplit` is |
| Text.SplitAtMostAppend | django_cache_url.py:98 | a bounded split cuts first at the first separator and uses up one cut |
| Text.SplitAtMostPieces | django_cache_url.py:98-103 | every piece but the last is separator-free; with a cut allowed there is one piece exactly when the separator is absent |
| Text.SplitAtMostAvoids | django_cache_url.py:98-103 | a character absent from the string is absent from every piece of the bounded split |
| Text.JoinSplitAtMost | django_cache_url.py:98-103 | joining the pieces of a bounded split gives the original string back |
| Text.NonEmpty | django_cache_url.py:122 | `filter(None, parts)` keeps exactly the non-empty parts, each non-empty, no more than there were |
| Text.NonEmptyAppend | django_cache_url.py:122 | filtering a concatenation filters each side |
| Text.NonEmptyKeeps | django_cache_url.py:165 | a list of non-empty parts is unchanged by the filter |
| Text.NotStartsWith | django_cache_url.py:89 | a mismatch at a position shared with the prefix rules out `startswith` |
| Text.NotContainsFirst | django_cache_url.py:93 | a substring whose first character does not occur is not contained |
| Text.ContainsSuffix | django_cache_url.py:93 | a suffix of a string is contained in it |
| Text.Lower | django_cache_url.py:65 | the lower-cased scheme holds no capital letter, each capital becomes its lower-case letter, other characters are kept, and a string without capitals is returned unchanged |
| Numbers.DigitChar | django_cache_url.py:150 | a digit below ten is spelled by the digit character of that value |
| Numbers.NatToString | django_cache_url.py:150 | `str(n)` for `n >= 0` is non-empty decimal digits denoting `n`, with a leading `0` only for zero |
| Numbers.ParseIntToString | django_cache_url.py:139-150 | `int(str(n)) == n` for every integer |
| Numbers.LeadingDigitPositive | django_cache_url.py:139 | digits led by a non-zero digit denote a positive number |
| Numbers.CanonicalDigitsRoundTrip | django_cache_url.py:139-150 | every digit string without a superfluous leading zero is the spelling of its own value |
| Numbers.CanonicalParseInt | django_cache_url.py:139-150 | such a digit string survives `str(int(text))` unchanged |
| Numbers.LeadingZeroRespelled | django_cache_url.py:139-150 | a digit string with a leading zero is respelled by `str(int(text))` (`01` becomes `1`) |
| Url.Cut | django_cache_url.py:65 | the first part of a cut at `c` holds no `c` |
| Url.SplitSchemeLower | django_cache_url.py:65 | the scheme found is empty or a lower-case scheme |
| Url.SplitNetlocAvoids | django_cache_url.py:65 | the authority found holds none of `/`, `?`, `#` |
| Url.CutAvoids | django_cache_url.py:65 | neither part of a cut holds a character the string lacks |
| Url.SplitUrl | django_cache_url.py:65 | `urlsplit` gives an empty or lower-case scheme, an authority without `/?#`, a path without `?#` and a query without `#` |
| Url.CutAt | django_cache_url.py:65 | a cut falls at the first occurrence of its character |
| Url.CutAbsent | django_cache_url.py:65 | without the character the cut leaves the string whole and the rest empty |
| Url.LowerOfLowerScheme | django_cache_url.py:65 | lower-casing leaves a lower-case scheme unchanged |
| Url.SplitSchemeOf | django_cache_url.py:65 | a lower-case scheme before `:` is read back with the rest after it |
| Url.SplitNetlocOf | django_cache_url.py:65 | an authority after `//`, followed by nothing or by `/?#`, is read back exactly |
| Url.CutQueryFragment | django_cache_url.py:65 | path, query and fragment written with `?` and `#` are read back exactly |
| Url.UnsplitForm | django_cache_url.py:114-117 | with a scheme and an authority, `urlunsplit` writes `scheme://netloc`, the rooted path, `?query` when there is one and `#fragment` when there is one |
| Url.SplitUnsplit | django_cache_url.py:114-117 | splitting an unsplit URL gives back its scheme, authority, rooted path, query and fragment |
| Url.QueryFields | django_cache_url.py:82 | `parse_qs` keeps only fields with an `=` and a non-empty value; names hold no `=` |
| Url.QueryPairs | django_cache_url.py:82 | every pair read from a query has a non-empty value, a name without `=`, and no `&` in either |
| Url.QueryFieldsAvoid | django_cache_url.py:82 | a character absent from every field is absent from every value kept |
| Url.QueryPairsAvoid | django_cache_url.py:82 | a character absent from the query is absent from every value read from it |
| Url.QueryValue | django_cache_url.py:84-85 | `get(name)[0]`: none exactly when the name is absent, otherwise the value of its first occurrence |
| Url.QueryFieldsOfEncoded | django_cache_url.py:82 | well-formed `name=value` fields are read back as exactly those pairs |
| Url.QueryPairsEncode | django_cache_url.py:82 | a query written from well-formed pairs reads back as exactly those pairs |
| CacheTypes.FamiliesCoverRegistry | django_cache_url.py:30-46 | the registered schemes are exactly `file` and the django-redis, redis and simple families, so the dispatch covers every registered scheme |
| CacheTypes.FamiliesDisjoint | django_cache_url.py:68-72 | no scheme is in two families, so the branches of `parse` never compete |
| CacheTypes.SharedBackends | django_cache_url.py:30-46 | `redis`/`hiredis` share one backend and the six django-redis schemes another; any two other schemes have distinct backends |
| CacheUrl.SocketEnd | django_cache_url.py:121-127 | the 1-based position of the first socket-file segment, and none exactly when no segment names a socket file |
| CacheUrl.FindSocketEnd | django_cache_url.py:121-127 | the enumerate-and-break loop computes exactly that first position |
| CacheUrl.ParseKnown | django_cache_url.py:67-189 | after the lookup, a success carries the looked-up backend; failures are never an unknown scheme, and each belongs to its family |
| CacheUrl.Parse | django_cache_url.py:61-191 | the result is an unknown-scheme error exactly when the scheme is not registered; a success carries `CACHE_TYPES[scheme]` as its backend |
| CacheUrl.Config | django_cache_url.py:49-58 | the empty configuration comes exactly from an empty setting, or from an unset one with an empty default |
| CacheUrlProperties.FileConfig | django_cache_url.py:67-70 | `file` URLs give exactly the file backend and the path verbatim as location, with no other key |
| CacheUrlProperties.SimpleParse | django_cache_url.py:183-189 | a simple scheme is parsed by the simple form with its own backend |
| CacheUrlProperties.ParseSimpleShape | django_cache_url.py:183-189 | no options; the prefix is the path minus its first character; the location is the netloc when comma-free, else the comma-pieces in order, one more than the commas and joining back to the netloc |
| CacheUrlProperties.SimpleSchemeConfig | django_cache_url.py:183-189 | the same shape for `Parse(url)` of every simple scheme, which never fails |
| CacheUrlProperties.RedisParse | django_cache_url.py:119-120 | a redis scheme is parsed by the unix form for netloc `unix` and by the network form otherwise, with the redis-cache backend |
| CacheUrlProperties.RedisOptionsShape | django_cache_url.py:169-181 | the parser class is present exactly for `hiredis`; the unix form never has a password; `OPTIONS` is absent exactly when both are |
| CacheUrlProperties.RedisNetworkForm | django_cache_url.py:155-167 | the network form fails exactly when the path has no non-empty segment; otherwise the prefix is the later segments joined; without a single `@` the location is the netloc and the first segment |
| CacheUrlProperties.RedisNetworkHostPart | django_cache_url.py:155-166 | with one `@`, the location is the text after it and the first segment |
| CacheUrlProperties.SplitUserInfoOf | django_cache_url.py:155-156 | a netloc with one `@` splits into the user-info and the host part |
| CacheUrlProperties.PasswordOfUserInfo | django_cache_url.py:160-176 | a user-info with one `:` gives the text after it as password, unless that is empty |
| CacheUrlProperties.RedisPasswordGiven | django_cache_url.py:155-176 | `user:password@host` sets `PASSWORD` to the password exactly when it is non-empty |
| CacheUrlProperties.RedisPasswordSource | django_cache_url.py:155-176 | conversely, a `PASSWORD` only comes from a netloc `user:password@host` with one `@`, one `:` and a non-empty password |
| CacheUrlProperties.RedisUnixNoMarker | django_cache_url.py:120-149 | the unix form fails when no segment names a socket file |
| CacheUrlProperties.SocketEndIs | django_cache_url.py:124-127 | the scan stops at the first socket-file segment |
| CacheUrlProperties.UnixSocketPartsAt | django_cache_url.py:129-146 | the socket path is the segments through the first socket file; a following integer is the database and the rest the prefix, else database 0 and all the rest the prefix |
| CacheUrlProperties.UnixLocationOf | django_cache_url.py:148-151 | the unix location is `unix:/`, the socket segments joined by `/`, `:` and the database |
| CacheUrlProperties.RedisUnixFormOf | django_cache_url.py:120-152 | the unix form on split parts: it fails when the marker is last; otherwise location and prefix are as the segment after the marker decides |
| CacheUrlProperties.RedisUnixForm | django_cache_url.py:120-152 | the same for `Parse(url)`: `unix:/<socket path>:<str(int(db))>` with the later segments as prefix, or `:0` with all remaining segments as prefix |
| CacheUrlProperties.DjTargetPlain | django_cache_url.py:88-95 | `dj` + a target not starting with `h`, in a scheme with no `u` at all (so no `unix`), rewrites to the target without hiredis |
| CacheUrlProperties.DjTargetHiredis | django_cache_url.py:88-95 | `djhi` + a target, in a scheme with no `u` at all (so no `unix`), rewrites to the target with hiredis |
| CacheUrlProperties.DjTargetUnix | django_cache_url.py:88-94 | the unix schemes rewrite to `unix`, with hiredis exactly for `djhiredisunix` |
| CacheUrlProperties.DjTargets | django_cache_url.py:88-94 | the rewritten scheme and hiredis flag of each of the six django-redis schemes |
| CacheUrlProperties.DjTargetStrips | django_cache_url.py:88-94 | for any scheme starting `dj`: hiredis exactly when it starts `djhi`; the target is `unix` when `unix` occurs; otherwise the scheme is `dj`, optional `hi`, then the target |
| CacheUrlProperties.TargetSchemesLower | django_cache_url.py:114 | the rewritten schemes are lower-case schemes |
| CacheUrlProperties.DjTargetIn | django_cache_url.py:88-94 | every django-redis scheme rewrites to `redis`, `rediss` or `unix` |
| CacheUrlProperties.DjTargetUnixIff | django_cache_url.py:93-94 | the target is `unix` exactly when the scheme contains `unix` |
| CacheUrlProperties.DjTargetOf | django_cache_url.py:88-94 | the four facts together for each registered django-redis scheme |
| CacheUrlProperties.DjParse | django_cache_url.py:72 | a django-redis scheme is parsed by the django-redis form with the django-redis backend |
| CacheUrlProperties.DjSettingsFailure | django_cache_url.py:93-99 | the settings step fails exactly for a non-unix scheme with a non-empty, slash-free path |
| CacheUrlProperties.DjFailure | django_cache_url.py:93-99 | the same as the only failure of `Parse(url)` for django-redis schemes |
| CacheUrlProperties.DjRedisShape | django_cache_url.py:106-110 | the django-redis form always sets a key prefix, sets options exactly with the hiredis flag, and never a password |
| CacheUrlProperties.DjConfigShape | django_cache_url.py:106-110 | for `Parse(url)`: a key prefix always, and the hiredis parser class exactly for schemes starting `djhi` |
| CacheUrlProperties.DjLocationForm | django_cache_url.py:112-117 | the location is `scheme://`, the netloc or `@`, the rooted path, and `?db=<db>` exactly for a non-empty db |
| CacheUrlProperties.QueryValueOrNonEmpty | django_cache_url.py:84 | a non-empty default is never replaced by an empty value |
| CacheUrlProperties.DjRedisQueryForm | django_cache_url.py:76-117 | the query form on split parts: the prefix is the query's `prefix` or empty; `?db=` is written only when the query has a kept field, with db `0` when the query names none |
| CacheUrlProperties.DjQueryForm | django_cache_url.py:76-117 | the same for `Parse(url)` of unix schemes and of non-unix ones with an empty path |
| CacheUrlProperties.SplitDjPath | django_cache_url.py:98 | `lead/db[/prefix]` splits into two or three parts, the prefix keeping its slashes |
| CacheUrlProperties.DjSettingsPath | django_cache_url.py:96-104 | the path overrides the query: part 1 is the db (unset when empty), part 2 the prefix (else the query's), and the path is dropped |
| CacheUrlProperties.DjRedisOk | django_cache_url.py:106-117 | a configuration built from the settings, the rewritten scheme and the hiredis options |
| CacheUrlProperties.DjRedisPathForm | django_cache_url.py:96-117 | the path form on split parts: the location is `scheme://netloc` plus `?db=<db>` for a non-empty db, with the prefix from the path or the query |
| CacheUrlProperties.DjPathForm | django_cache_url.py:96-117 | the same for `Parse(url)` |
| CacheUrlProperties.DjLocationSplit | django_cache_url.py:112-117 | the location splits back into the scheme, netloc or `@`, rooted path, `db=` query and no fragment |
| CacheUrlProperties.DjSettingsAvoid | django_cache_url.py:82-104 | the settings keep or drop the path, and take no `#` into db |
| CacheUrlProperties.DjRedisLocation | django_cache_url.py:76-117 | on split parts, the location built splits back into the target scheme, the netloc or `@`, the kept path and a `db=<non-empty>` query or none |
| CacheUrlProperties.DjLocationRoundTrip | django_cache_url.py:72-117 | for `Parse(url)`: the location is one URL that splits back into the rewritten scheme, the netloc or `@`, the path only for unix schemes, and an optional non-empty `db=` query |
| CacheUrlProperties.KnownFailures | django_cache_url.py:99-166 | each failure after the lookup belongs to its branch and names its cause: no segment (redis network); no socket-file segment, or the first one is the last segment (unix); a non-empty slash-free path (django-redis) |
| CacheUrlProperties.ParseFailures | django_cache_url.py:64-166 | every failure of `parse` is one of the five causes, with the condition that produced it: an unregistered scheme; a redis network URL with no path segment; a unix URL with no socket-file segment, or whose first socket-file segment is the last one; a django-redis URL whose non-unix path is non-empty and slash-free |
| CacheUrlProperties.ConfigUnset | django_cache_url.py:53 | an unset variable behaves as if it held the default |
| CacheUrlProperties.ConfigEmpty | django_cache_url.py:55-58 | an empty value gives the empty configuration, whatever the default |
| CacheUrlProperties.ConfigParses | django_cache_url.py:55-56 | for a non-empty value, `config` succeeds exactly when `parse` does, with the same result or failure |
| CacheUrlProperties.SplitDefaultUrl | django_cache_url.py:49 | `locmem://` splits into the scheme `locmem` and nothing else |
| CacheUrlProperties.ParseBareLocmem | django_cache_url.py:183-189 | a bare `locmem` URL gives the local-memory backend, empty location and empty prefix |
| CacheUrlProperties.ParseDefault | django_cache_url.py:183-189 | `parse("locmem://")` gives that configuration |
| CacheUrlProperties.ConfigDefault | django_cache_url.py:49-58 | with the variable unset, `config` gives the local-memory cache of the default URL |

## Left out

- Environment read: `os.environ.get(env, default)` (l.53) is I/O. `Config` takes the looked-up value as an `Option` parameter, and the variable name `DEFAULT_ENV` (l.28) is the caller's concern.
- Scheme registration: appending to `uses_netloc` (l.12-26) is a global side effect. Python 3's `urlsplit` splits an authority after `//` for every scheme, so the splitter does that for all schemes.
- URL library details:
  - percent-decoding;
  - `+` read as a space;
  - `;` as a query separator;
  - the `ValueError`s `urlsplit` raises and `parse` does not catch: an unbalanced or invalid bracketed IPv6 netloc, and a non-ASCII netloc that normalises to a delimiter;
  - whitespace stripping and removal of unsafe characters;
  - `urlparse`'s `params` split, which does not apply to any registered scheme;
  - `urlunsplit` with an empty authority, which `parse` never passes because it uses `netloc or '@'`.
- `parse_qs` is modelled only as far as `parse` reads it: a list of kept pairs, with the first value per name.
- Python `int()` leniency: surrounding whitespace, underscores and non-ASCII digits are not accepted by `ParseInt`. Only an optional sign and ASCII digits are.
- ParseInt: has no digit limit. From Python 3.11, `int()` raises `ValueError` on more than 4300 digits. The code catches that at l.139-144 and gives database 0 with the whole rest as prefix. For such a segment the model reads the number instead.
- Exceptions are not modelled as exceptions. Each escaping exception is one `ParseError` case, and the message text is not modelled.
- Python versions: Python 2's `urlparse` module (l.5-8) is not modelled. The splitter follows Python 3.9 and later. Up to 3.8, `urlsplit` reads `scheme:<digits>` as a path with no scheme.
- The expected values in `tests.py` are not restated as concrete lemmas on literal URLs. The general lemmas above cover each family the tests exercise.
- The `OPTIONS` dictionary is a record with two optional fields (`PARSER_CLASS`, `PASSWORD`), not an open dictionary.
- `LOCATION` as a list exists only for the simple schemes (a comma-separated netloc). Every other family yields a single string.
