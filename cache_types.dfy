/** The static table from URL scheme to Django cache backend, and the scheme families the parser dispatches on. */
module CacheTypes {

  const DATABASE_CACHE := "django.core.cache.backends.db.DatabaseCache"
  const DUMMY_CACHE := "django.core.cache.backends.dummy.DummyCache"
  const FILE_BASED_CACHE := "django.core.cache.backends.filebased.FileBasedCache"
  const LOC_MEM_CACHE := "django.core.cache.backends.locmem.LocMemCache"
  const PYLIBMC_CACHE := "django.core.cache.backends.memcached.PyLibMCCache"
  const DJANGO_PYLIBMC_CACHE := "django_pylibmc.memcached.PyLibMCCache"
  const MEMCACHED_CACHE := "django.core.cache.backends.memcached.MemcachedCache"
  const REDIS_CACHE := "redis_cache.cache.RedisCache"
  const DJANGO_REDIS_CACHE := "django_redis.cache.RedisCache"

  /** The parser class both redis adapters are given for the `hi` schemes. */
  const HIREDIS_PARSER := "redis.connection.HiredisParser"

  /** `CACHE_TYPES`: fifteen scheme tokens onto nine backends. */
  const CACHE_TYPES: map<string, string> := map[
    "db" := DATABASE_CACHE,
    "dummy" := DUMMY_CACHE,
    "file" := FILE_BASED_CACHE,
    "locmem" := LOC_MEM_CACHE,
    "memcached" := PYLIBMC_CACHE,
    "djangopylibmc" := DJANGO_PYLIBMC_CACHE,
    "pymemcached" := MEMCACHED_CACHE,
    "redis" := REDIS_CACHE,
    "hiredis" := REDIS_CACHE,
    "djredis" := DJANGO_REDIS_CACHE,
    "djrediss" := DJANGO_REDIS_CACHE,
    "djhiredis" := DJANGO_REDIS_CACHE,
    "djhirediss" := DJANGO_REDIS_CACHE,
    "djredisunix" := DJANGO_REDIS_CACHE,
    "djhiredisunix" := DJANGO_REDIS_CACHE
  ]

  /** Schemes re-encoded as a connection URL for the django-redis adapter. */
  const DJ_REDIS_SCHEMES: set<string> := {"djredis", "djrediss", "djhiredis", "djhirediss", "djredisunix", "djhiredisunix"}

  /** Schemes turned into a `host:port:db` or `unix:` location for the redis-cache adapter. */
  const REDIS_SCHEMES: set<string> := {"redis", "hiredis"}

  /** The schemes the parser's final branch handles: the netloc is the location, the path the prefix. */
  const SIMPLE_SCHEMES: set<string> := {"db", "dummy", "locmem", "memcached", "djangopylibmc", "pymemcached"}

  /** The four families together are exactly the registered schemes, so the dispatch in `parse` covers every one. */
  lemma FamiliesCoverRegistry()
    ensures CACHE_TYPES.Keys == {"file"} + DJ_REDIS_SCHEMES + REDIS_SCHEMES + SIMPLE_SCHEMES
  {
  }

  /** No scheme belongs to two families, so the order of the branches in `parse` does not matter. */
  lemma FamiliesDisjoint()
    ensures "file" !in DJ_REDIS_SCHEMES + REDIS_SCHEMES + SIMPLE_SCHEMES
    ensures DJ_REDIS_SCHEMES !! REDIS_SCHEMES && DJ_REDIS_SCHEMES !! SIMPLE_SCHEMES && REDIS_SCHEMES !! SIMPLE_SCHEMES
  {
  }

  /** Redis and hiredis share one backend, the six django-redis schemes another; the other seven are distinct. */
  lemma SharedBackends()
    ensures forall s :: s in REDIS_SCHEMES ==> CACHE_TYPES[s] == REDIS_CACHE
    ensures forall s :: s in DJ_REDIS_SCHEMES ==> CACHE_TYPES[s] == DJANGO_REDIS_CACHE
    ensures forall s, t :: s in CACHE_TYPES && t in CACHE_TYPES && CACHE_TYPES[s] == CACHE_TYPES[t] && s != t ==>
      (s in REDIS_SCHEMES && t in REDIS_SCHEMES) || (s in DJ_REDIS_SCHEMES && t in DJ_REDIS_SCHEMES)
  {
  }
}
