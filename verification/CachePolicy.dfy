/** Retention of generated artifacts (internal/cachepolicy/artifact.go). Times and
    durations are nanoseconds. */
module CachePolicy {
  import opened Basics

  const MAX_DURATION: int := 0x7fff_ffff_ffff_ffff
  const MIN_DURATION: int := -0x8000_0000_0000_0000

  /** time.Time.Sub: the difference, held within a 64-bit duration. */
  function Sub(later: int, earlier: int): int {
    var d := later - earlier;
    if d > MAX_DURATION then MAX_DURATION else if d < MIN_DURATION then MIN_DURATION else d
  }

  datatype ArtifactPolicy = ArtifactPolicy(
    defaultMaxAge: int,
    namespaceMaxAge: map<string, int>,
    maxCacheBytes: int,
    namespaceMaxCacheBytes: map<string, int>)
  {
    function MaxAge(namespace: string): int {
      if namespace in namespaceMaxAge && namespaceMaxAge[namespace] > 0 then namespaceMaxAge[namespace]
      else defaultMaxAge
    }

    function MaxCacheBytesForNamespace(namespace: string): int {
      var name := TrimSpace(namespace);
      if name in namespaceMaxCacheBytes && namespaceMaxCacheBytes[name] > 0 then namespaceMaxCacheBytes[name]
      else maxCacheBytes
    }

    predicate ShouldRemoveExpired(namespace: string, lastUsed: int, now: int) {
      var maxAge := MaxAge(namespace);
      maxAge > 0 && Sub(now, lastUsed) > maxAge
    }
  }

  /** Expiry over plain integers: a positive age, the namespace's own if it has one, is exceeded.
      The longest duration stands for no bound, as no difference of times exceeds it. */
  lemma ExpiredIff(policy: ArtifactPolicy, namespace: string, lastUsed: int, now: int)
    ensures var own := if namespace in policy.namespaceMaxAge then policy.namespaceMaxAge[namespace] else 0;
            var age := if own > 0 then own else policy.defaultMaxAge;
            policy.ShouldRemoveExpired(namespace, lastUsed, now) <==> 0 < age < MAX_DURATION && now - lastUsed > age
  {
  }

  /** A namespace's limit is its own positive one, else the cache's. */
  lemma LimitIff(policy: ArtifactPolicy, namespace: string)
    requires TrimSpace(namespace) == namespace
    ensures var own := if namespace in policy.namespaceMaxCacheBytes then policy.namespaceMaxCacheBytes[namespace] else 0;
            policy.MaxCacheBytesForNamespace(namespace) == if own > 0 then own else policy.maxCacheBytes
  {
  }
}
