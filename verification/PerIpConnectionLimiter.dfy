/** The per-address connection counts. */
module PerIpConnectionLimiter {
  import opened Bytes

  type Ip = Buffer

  type Counts = map<Ip, int>

  function CountOf(counts: Counts, ip: Ip): int {
    if ip in counts then counts[ip] else 0
  }

  /** `counts_[ip]` creates the entry with 0 before the test. */
  function Acquired(counts: Counts, ip: Ip, max_per_ip: int): Counts {
    if CountOf(counts, ip) >= max_per_ip then counts[ip := CountOf(counts, ip)]
    else counts[ip := CountOf(counts, ip) + 1]
  }

  function Released(counts: Counts, ip: Ip): Counts {
    if ip !in counts then counts
    else if counts[ip] - 1 <= 0 then counts - {ip}
    else counts[ip := counts[ip] - 1]
  }

  /** No entry is left at zero, and none is over the limit. */
  ghost predicate InLimits(counts: Counts, max_per_ip: int) {
    forall ip :: ip in counts ==> 1 <= counts[ip] <= max_per_ip
  }

  class PerIpConnectionLimiter {
    const max_per_ip: int
    var counts: Counts

    constructor (max_per_ip: int)
      ensures this.max_per_ip == max_per_ip && counts == map[]
    {
      this.max_per_ip := max_per_ip;
      counts := map[];
    }

    method TryAcquire(ip: Ip) returns (ok: bool)
      modifies this
      ensures ok <==> CountOf(old(counts), ip) < max_per_ip
      ensures counts == Acquired(old(counts), ip, max_per_ip)
      ensures max_per_ip >= 1 && old(InLimits(counts, max_per_ip)) ==> InLimits(counts, max_per_ip)
    {
      if ip !in counts {
        counts := counts[ip := 0];
      }
      if counts[ip] >= max_per_ip { return false; }
      counts := counts[ip := counts[ip] + 1];
      return true;
    }

    method Release(ip: Ip)
      modifies this
      ensures counts == Released(old(counts), ip)
      ensures old(InLimits(counts, max_per_ip)) ==> InLimits(counts, max_per_ip)
    {
      if ip !in counts { return; }
      counts := counts[ip := counts[ip] - 1];
      if counts[ip] <= 0 {
        counts := counts - {ip};
      }
    }
  }
}
