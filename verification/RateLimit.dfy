/** What the rate-limit algorithms of packages/limit/src/strategies.ts answer. */
module RateLimit {
  datatype Decision<N> = Decision(allowed: bool, remaining: N, total: N, resetTime: N)
}
