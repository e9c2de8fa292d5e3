/** The IP blacklist of the web server: failed logins are counted per
    address, an address that reaches the failure threshold is blacklisted
    at the current time, and a blacklisted address stays blocked while it
    keeps coming back within the timeout (a sliding window). The clock, the
    threshold and the timeout are parameters; the two process-wide maps are
    the fields of one object. */
module Blacklist {
  import opened Bytes

  /** The two maps: failures per address and the time each blacklisted
      address was last seen. */
  datatype Lists = Lists(hits: map<string, u32>, blacklist: map<string, int>)

  /** bl_isBlacklisted as a function of the maps: the new maps and the
      answer. */
  function Query(b: Lists, addr: string, now: int, timeout: u32): (r: (Lists, bool))
    ensures addr !in b.blacklist ==> r == (b, false)
    ensures r.0.hits - {addr} == b.hits - {addr} && r.0.blacklist - {addr} == b.blacklist - {addr}
    ensures r.1 <==> addr in r.0.blacklist
    ensures r.1 ==> r.0.blacklist[addr] == now && r.0.hits == b.hits
    ensures addr in b.blacklist && !r.1 ==> addr !in r.0.hits && now - timeout > b.blacklist[addr]
  {
    if addr !in b.blacklist then (b, false)
    else if now - timeout > b.blacklist[addr] then
      (Lists(b.hits - {addr}, b.blacklist - {addr}), false)
    else
      (Lists(b.hits, b.blacklist[addr := now]), true)
  }

  /** The failure count after one more failure; ++ on an unsigned wraps. */
  function Bumped(hits: map<string, u32>, addr: string): u32
  {
    ToU32((if addr in hits then hits[addr] as int else 0) + 1)
  }

  /** bl_addFailure as a function of the maps. A threshold of 0 turns the
      blacklist off; otherwise the count is compared with the threshold
      converted to unsigned. */
  function Fail(b: Lists, addr: string, now: int, threshold: int): (r: Lists)
    ensures threshold == 0 ==> r == b
    ensures threshold != 0 ==> addr in r.hits && r.hits[addr] == Bumped(b.hits, addr)
    ensures r.hits - {addr} == b.hits - {addr} && r.blacklist - {addr} == b.blacklist - {addr}
    ensures threshold != 0 && Bumped(b.hits, addr) >= ToU32(threshold) ==>
      addr in r.blacklist && r.blacklist[addr] == now
    ensures threshold != 0 && Bumped(b.hits, addr) < ToU32(threshold) ==> r.blacklist == b.blacklist
  {
    if threshold == 0 then b
    else
      var num := Bumped(b.hits, addr);
      var hits := b.hits[addr := num];
      if num >= ToU32(threshold) then Lists(hits, b.blacklist[addr := now]) else Lists(hits, b.blacklist)
  }

  /** n failures of one address at time now. */
  function Failures(b: Lists, addr: string, now: int, threshold: int, n: nat): Lists
  {
    if n == 0 then b else Fail(Failures(b, addr, now, threshold, n - 1), addr, now, threshold)
  }

  /** Starting from no recorded failure, k failures (below 2^32) leave a
      count of k. */
  lemma {:induction false} FailuresCount(b: Lists, addr: string, now: int, threshold: int, n: nat)
    requires threshold != 0 && addr !in b.hits && n < TWO32
    ensures n > 0 ==>
      addr in Failures(b, addr, now, threshold, n).hits && Failures(b, addr, now, threshold, n).hits[addr] == n
    ensures n == 0 ==> addr !in Failures(b, addr, now, threshold, n).hits
  {
    if n > 0 {
      FailuresCount(b, addr, now, threshold, n - 1);
    }
  }

  /** One failure that brings the count to n, 0 < n < 2^32. */
  lemma FailAt(p: Lists, addr: string, now: int, threshold: int, n: int)
    requires 0 < threshold < TWO32 && 0 < n < TWO32 && Bumped(p.hits, addr) == n
    ensures n >= threshold ==>
      addr in Fail(p, addr, now, threshold).blacklist && Fail(p, addr, now, threshold).blacklist[addr] == now
    ensures n < threshold ==> Fail(p, addr, now, threshold).blacklist == p.blacklist
  {
    assert ToU32(threshold) == threshold;
  }

  /** An address with no recorded failure is blacklisted by exactly the
      threshold-th failure: not before it, and from it on. */
  lemma {:induction false} ThresholdFailuresBlacklist(b: Lists, addr: string, now: int, threshold: int, n: nat)
    requires 0 < threshold < TWO32 && addr !in b.hits && addr !in b.blacklist && n < TWO32
    ensures addr in Failures(b, addr, now, threshold, n).blacklist <==> n >= threshold
    ensures n >= threshold ==> Failures(b, addr, now, threshold, n).blacklist[addr] == now
  {
    if n > 0 {
      ThresholdFailuresBlacklist(b, addr, now, threshold, n - 1);
      BumpedAfter(b, addr, now, threshold, n - 1);
      FailAt(Failures(b, addr, now, threshold, n - 1), addr, now, threshold, n);
    }
  }

  /** After m failures of a fresh address, the next one counts m + 1. */
  lemma BumpedAfter(b: Lists, addr: string, now: int, threshold: int, m: nat)
    requires threshold != 0 && addr !in b.hits && m + 1 < TWO32
    ensures Bumped(Failures(b, addr, now, threshold, m).hits, addr) == m + 1
  {
    FailuresCount(b, addr, now, threshold, m);
  }

  /** Sliding window: an address that was just found blacklisted is still
      blacklisted at any time up to timeout seconds later. */
  lemma SlidingWindow(b: Lists, addr: string, now: int, later: int, timeout: u32)
    requires Query(b, addr, now, timeout).1
    requires later - timeout <= now
    ensures Query(Query(b, addr, now, timeout).0, addr, later, timeout).1
  {
  }

  /** Once an entry has expired, the failure count starts again from one. */
  lemma ExpiryForgetsFailures(b: Lists, addr: string, now: int, timeout: u32, threshold: int)
    requires addr in b.blacklist && now - timeout > b.blacklist[addr] && threshold != 0
    ensures var e := Query(b, addr, now, timeout);
      !e.1 && Fail(e.0, addr, now, threshold).hits[addr] == 1
  {
  }

  /** The process-wide maps `hits` and `blacklist`. */
  class Blacklist {
    var hits: map<string, u32>
    var blacklist: map<string, int>

    function State(): Lists
      reads this
    {
      Lists(hits, blacklist)
    }

    constructor ()
      ensures hits == map[] && blacklist == map[]
    {
      hits := map[];
      blacklist := map[];
    }

    /** bl_isBlacklisted(addr) at time now with the configured timeout:
        an unknown address is not blocked; an expired entry is dropped
        together with its failure count; otherwise the entry is refreshed. */
    method IsBlacklisted(addr: string, now: int, timeout: u32) returns (r: byte)
      modifies this
      ensures (State(), r == 1) == Query(old(State()), addr, now, timeout)
      ensures r == 0 || r == 1
    {
      if addr !in blacklist {
        return 0;
      }
      if now - timeout > blacklist[addr] {
        blacklist := blacklist - {addr};
        hits := hits - {addr};
        return 0;
      } else {
        blacklist := blacklist[addr := now];
        return 1;
      }
    }

    /** bl_addFailure(addr) at time now with the configured threshold. */
    method AddFailure(addr: string, now: int, threshold: int)
      modifies this
      ensures State() == Fail(old(State()), addr, now, threshold)
    {
      if threshold == 0 {
        return;
      }
      var num := ToU32((if addr in hits then hits[addr] as int else 0) + 1);
      hits := hits[addr := num];
      if num >= ToU32(threshold) {
        blacklist := blacklist[addr := now];
      }
    }
  }
}
