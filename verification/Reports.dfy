/** The aggregate report of src/pool.go:181-223, which every refusal carries. */
module Reports {
  import opened Basics
  import opened Accounts
  import opened Durable
  import opened Scheduler

  datatype Report = Report(reason: Reason, eligible: nat, exhausted: nat, suspended: nat, unavailable: nat, retryAt: Time)

  function Sooner(a: Time, b: Time): Time {
    if a == 0 || b < a then b else a
  }

  /** One candidate of `RetryAt`: an expiry after `now` that precedes the best so far. */
  function Consider(retryAt: Time, until: Time, now: Time): Time {
    if until > now then Sooner(retryAt, until) else retryAt
  }

  function AddToReport(r: Report, mem: Persisted, a: Account, now: Time): Report {
    var k := KeyOf(mem, a.fingerprint);
    var v := Blocked(mem, a, now);
    var retryAt := Consider(Consider(Consider(r.retryAt, k.exhaustedUntil, now), k.suspendedUntil, now), k.rateLimitedUntil, now);
    r.(eligible := r.eligible + (if v == Eligible then 1 else 0),
       exhausted := r.exhausted + (if v == Exhausted then 1 else 0),
       suspended := r.suspended + (if v == Suspended then 1 else 0),
       unavailable := r.unavailable + (if v in {Disabled, RateLimited, Quarantined} then 1 else 0),
       retryAt := retryAt)
  }

  function ReportOver(reason: Reason, mem: Persisted, accounts: seq<Account>, now: Time): (r: Report)
    ensures r.reason == reason
  {
    if accounts == [] then Report(reason, 0, 0, 0, 0, 0)
    else AddToReport(ReportOver(reason, mem, accounts[..|accounts| - 1], now), mem, accounts[|accounts| - 1], now)
  }

  function Unavailable(p: Pool, reason: Reason, now: Time): Report {
    ReportOver(reason, p.mem, p.cfg.accounts, now)
  }
}
