/** The snapshot record a store hands out about one limiter key. */
module Entity {
  import opened Wrappers

  /** `BlockedUntil` is a wall-clock instant in Go; its zero value means "not
      blocked" and is `None` here. Instants are nanoseconds on the store's
      logical clock. */
  datatype RateLimit = RateLimit(key: string, count: int, blockedUntil: Option<int>)
}
