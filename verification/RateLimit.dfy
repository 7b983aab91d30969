/** What both rate limiters of app/core/rate_limit.py answer. */
module RateLimits {

  datatype Verdict = Verdict(allowed: bool, remaining: int)
}
