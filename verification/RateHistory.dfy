/** What the request limiter promises, stated over the whole history of its decisions: which requests
    were accepted, which were denied, who was blocked until when, and when an address was forgotten.
    Nothing here is trimmed, evicted or bounded. Times are nanoseconds. */
module RateHistory {
  import opened Basics

  const SECOND: int := 1_000_000_000
  const MINUTE: int := 60 * SECOND

  /** A recorded moment; for an accepted request also the limit it was accepted under. */
  datatype Stamp = Stamp(at: int, limit: nat)

  datatype Event =
    | Accepted(ip: Ip, stamp: Stamp)
    | Denied(ip: Ip, stamp: Stamp)
    | Blocked(ip: Ip, at: int, until: int, full: bool)
    | Forgot(ip: Ip)
    | Cleared

  /** What the history says of one address: its requests accepted since it was last forgotten, its
      denials since it was last blocked or forgotten, and until when its latest block lasts. */
  datatype Past = Past(accepted: seq<Stamp>, denied: seq<Stamp>, until: int)

  const NOTHING: Past := Past([], [], 0)

  function Push(p: Past, ip: Ip, e: Event): (p': Past) {
    match e
    case Accepted(who, stamp) => if who == ip then p.(accepted := p.accepted + [stamp]) else p
    case Denied(who, stamp) => if who == ip then p.(denied := p.denied + [stamp]) else p
    case Blocked(who, _, until, _) => if who == ip then p.(denied := [], until := until) else p
    case Forgot(who) => if who == ip then NOTHING else p
    case Cleared => NOTHING
  }

  function PastOf(log: seq<Event>, ip: Ip): (p: Past) {
    if log == [] then NOTHING else Push(PastOf(log[..|log| - 1], ip), ip, log[|log| - 1])
  }

  lemma PastSnoc(log: seq<Event>, e: Event, ip: Ip)
    ensures PastOf(log + [e], ip) == Push(PastOf(log, ip), ip, e)
  {
    assert (log + [e])[..|log|] == log;
  }

  predicate Nondecreasing(h: seq<Stamp>) {
    forall i, j :: 0 <= i <= j < |h| ==> h[i].at <= h[j].at
  }

  /** How many of the first `n` moments are later than `after`. */
  function CountAfter(h: seq<Stamp>, n: nat, after: int): (c: nat)
    requires n <= |h|
    ensures c <= n
  {
    if n == 0 then 0 else CountAfter(h, n - 1, after) + (if h[n - 1].at > after then 1 else 0)
  }

  /** How many moments lie in the minute that ends at `t`: after t - 60 s, up to t. */
  function CountMinute(h: seq<Stamp>, n: nat, t: int): (c: nat)
    requires n <= |h|
  {
    if n == 0 then 0
    else CountMinute(h, n - 1, t) + (if t - MINUTE < h[n - 1].at <= t then 1 else 0)
  }

  /** Every request was accepted with fewer than its limit in the minute before it. */
  predicate Paced(h: seq<Stamp>) {
    forall i {:trigger h[i].limit} :: 0 <= i < |h| ==> CountAfter(h, i, h[i].at - MINUTE) < h[i].limit
  }

  lemma {:induction false} CountAgrees(h: seq<Stamp>, g: seq<Stamp>, n: nat, after: int)
    requires n <= |h| && n <= |g| && forall k :: 0 <= k < n ==> h[k] == g[k]
    ensures CountAfter(h, n, after) == CountAfter(g, n, after)
  {
    if n > 0 {
      CountAgrees(h, g, n - 1, after);
    }
  }

  lemma PacedSnoc(h: seq<Stamp>, s: Stamp)
    requires Paced(h) && CountAfter(h, |h|, s.at - MINUTE) < s.limit
    ensures Paced(h + [s])
  {
    var g := h + [s];
    forall i | 0 <= i < |g| ensures CountAfter(g, i, g[i].at - MINUTE) < g[i].limit {
      CountAgrees(g, h, i, g[i].at - MINUTE);
    }
  }

  /** Counting from an earlier moment cannot find fewer. */
  lemma {:induction false} MinuteWithinAfter(h: seq<Stamp>, n: nat, t: int, after: int)
    requires n <= |h| && after <= t - MINUTE
    ensures CountMinute(h, n, t) <= CountAfter(h, n, after)
  {
    if n > 0 {
      MinuteWithinAfter(h, n - 1, t, after);
    }
  }

  predicate LimitsWithin(h: seq<Stamp>, limit: nat) {
    forall i :: 0 <= i < |h| ==> h[i].limit <= limit
  }

  /** No minute, wherever it is placed, holds more accepted requests than the largest limit in force. */
  lemma {:induction false} MinuteNeverExceeds(h: seq<Stamp>, n: nat, limit: nat, t: int)
    requires n <= |h| && Paced(h) && LimitsWithin(h, limit)
    ensures CountMinute(h, n, t) <= limit
  {
    if n > 0 {
      var last := h[n - 1];
      if t - MINUTE < last.at <= t {
        MinuteWithinAfter(h, n - 1, t, last.at - MINUTE);
      } else {
        MinuteNeverExceeds(h, n - 1, limit, t);
      }
    }
  }

  /** Blocks were set in the order of the history, none after `clock`. */
  predicate BlocksInOrder(log: seq<Event>, clock: int) {
    if log == [] then true
    else
      var front, last := log[..|log| - 1], log[|log| - 1];
      if last.Blocked? then last.at <= clock && BlocksInOrder(front, last.at) else BlocksInOrder(front, clock)
  }

  lemma BlocksSnoc(log: seq<Event>, e: Event, clock: int)
    requires BlocksInOrder(log, clock) && (e.Blocked? ==> e.at == clock)
    ensures BlocksInOrder(log + [e], clock)
  {
    assert (log + [e])[..|log|] == log;
  }

  lemma {:induction false} BlocksLater(log: seq<Event>, clock: int, now: int)
    requires BlocksInOrder(log, clock) && clock <= now
    ensures BlocksInOrder(log, now)
    decreases |log|
  {
    if log != [] && !log[|log| - 1].Blocked? {
      BlocksLater(log[..|log| - 1], clock, now);
    }
  }

  lemma {:induction false} BlockedBefore(log: seq<Event>, clock: int, i: nat)
    requires BlocksInOrder(log, clock) && i < |log| && log[i].Blocked?
    ensures log[i].at <= clock
    decreases |log|
  {
    if i < |log| - 1 {
      var last := log[|log| - 1];
      BlockedBefore(log[..|log| - 1], if last.Blocked? then last.at else clock, i);
    }
  }

  /** Every block of the address from entry `from` on lasts `length`. */
  predicate BlocksLast(log: seq<Event>, ip: Ip, from: nat, length: int) {
    forall i :: from <= i < |log| && log[i].Blocked? && log[i].ip == ip ==> log[i].until == log[i].at + length
  }

  predicate NotForgotten(log: seq<Event>, ip: Ip, from: nat) {
    forall i :: from <= i < |log| ==> log[i] != Forgot(ip) && log[i] != Cleared
  }

  /** With a constant block time, an address blocked at some moment stays blocked for that time at least,
      whatever is recorded after it, unless the address is forgotten. */
  lemma {:induction false} BlocksExtend(log: seq<Event>, clock: int, ip: Ip, from: nat, length: int)
    requires from < |log| && log[from].Blocked? && log[from].ip == ip
    requires BlocksInOrder(log, clock) && BlocksLast(log, ip, from, length) && NotForgotten(log, ip, from)
    ensures PastOf(log, ip).until >= log[from].at + length
    decreases |log|
  {
    var last := log[|log| - 1];
    if last.Blocked? && last.ip == ip {
      BlockedBefore(log, last.at, from);
    } else {
      BlocksExtend(log[..|log| - 1], if last.Blocked? then last.at else clock, ip, from, length);
    }
  }

  // ---------------------------------------------------------------- denials and blocks

  /** No denial since the last block reached its limit within the minute before it. */
  predicate Spared(h: seq<Stamp>) {
    forall i {:trigger h[i].limit} :: 0 <= i < |h| ==> CountAfter(h, i, h[i].at - MINUTE) + 1 < h[i].limit
  }

  lemma SparedSnoc(h: seq<Stamp>, s: Stamp)
    requires Spared(h) && CountAfter(h, |h|, s.at - MINUTE) + 1 < s.limit
    ensures Spared(h + [s])
  {
    var g := h + [s];
    forall i | 0 <= i < |g| ensures CountAfter(g, i, g[i].at - MINUTE) + 1 < g[i].limit {
      CountAgrees(g, h, i, g[i].at - MINUTE);
    }
  }

  /** So no minute, wherever it is placed, holds as many of them as the largest limit in force. */
  lemma {:induction false} MinuteNeverReaches(h: seq<Stamp>, n: nat, limit: nat, t: int)
    requires n <= |h| && Spared(h) && LimitsWithin(h, limit) && limit >= 1
    ensures CountMinute(h, n, t) < limit
  {
    if n > 0 {
      var last := h[n - 1];
      if t - MINUTE < last.at <= t {
        MinuteWithinAfter(h, n - 1, t, last.at - MINUTE);
      } else {
        MinuteNeverReaches(h, n - 1, limit, t);
      }
    }
  }

  /** The denials of the minute before a moment, as the history has them. */
  function RecentDenials(log: seq<Event>, ip: Ip, now: int): (n: nat) {
    var h := PastOf(log, ip).denied; CountAfter(h, |h|, now - MINUTE)
  }

  /** The block follows a denial of its address at the same moment that made the limit full. */
  predicate IsDeserved(log: seq<Event>, i: nat)
    requires i < |log| && log[i].Blocked?
  {
    && i > 0 && log[i - 1].Denied? && log[i - 1].ip == log[i].ip && log[i - 1].stamp.at == log[i].at
    && RecentDenials(log[..i], log[i].ip, log[i].at) >= log[i - 1].stamp.limit
  }

  /** Everybody who reached the limit was blocked, and nobody else, but for want of room. */
  ghost predicate Judged(log: seq<Event>) {
    && (forall ip :: Spared(PastOf(log, ip).denied))
    && (forall i :: 0 <= i < |log| && log[i].Blocked? && !log[i].full ==> IsDeserved(log, i))
  }

  lemma DeservedStays(log: seq<Event>, e: Event, i: nat)
    requires i < |log| && log[i].Blocked?
    ensures IsDeserved(log + [e], i) <==> IsDeserved(log, i)
  {
    assert (log + [e])[..i] == log[..i];
    assert i > 0 ==> (log + [e])[i - 1] == log[i - 1];
  }

  /** An event that is neither a denial nor a block for cause. */
  lemma JudgedOther(log: seq<Event>, e: Event)
    requires Judged(log) && !e.Denied? && (e.Blocked? ==> e.full)
    ensures Judged(log + [e])
  {
    forall ip ensures Spared(PastOf(log + [e], ip).denied) {
      PastSnoc(log, e, ip);
      assert Spared(PastOf(log, ip).denied);
    }
    forall i | 0 <= i < |log + [e]| && (log + [e])[i].Blocked? && !(log + [e])[i].full ensures IsDeserved(log + [e], i) {
      DeservedStays(log, e, i);
    }
  }

  /** A denial below the limit. */
  lemma JudgedDenial(log: seq<Event>, ip: Ip, s: Stamp)
    requires Judged(log) && RecentDenials(log, ip, s.at) + 1 < s.limit
    ensures Judged(log + [Denied(ip, s)])
  {
    var e := Denied(ip, s);
    forall other ensures Spared(PastOf(log + [e], other).denied) {
      PastSnoc(log, e, other);
      assert Spared(PastOf(log, other).denied);
      if other == ip {
        SparedSnoc(PastOf(log, ip).denied, s);
      }
    }
    forall i | 0 <= i < |log + [e]| && (log + [e])[i].Blocked? && !(log + [e])[i].full ensures IsDeserved(log + [e], i) {
      DeservedStays(log, e, i);
    }
  }

  /** A denial that reaches it, and the block. */
  lemma JudgedBlock(log: seq<Event>, ip: Ip, s: Stamp, until: int)
    requires Judged(log) && RecentDenials(log, ip, s.at) + 1 >= s.limit
    ensures Judged(log + [Denied(ip, s), Blocked(ip, s.at, until, false)])
  {
    var d, e := Denied(ip, s), Blocked(ip, s.at, until, false);
    var one, two := log + [d], log + [d, e];
    assert two == one + [e];
    forall other ensures Spared(PastOf(two, other).denied) {
      PastSnoc(log, d, other);
      PastSnoc(one, e, other);
      assert Spared(PastOf(log, other).denied);
    }
    forall i | 0 <= i < |two| && two[i].Blocked? && !two[i].full ensures IsDeserved(two, i) {
      if i < |log| {
        DeservedStays(log, d, i);
        DeservedStays(one, e, i);
      } else {
        DenialCounts(log, ip, s);
        assert two[..i] == one && two[i - 1] == d;
      }
    }
  }

  lemma DenialCounts(log: seq<Event>, ip: Ip, s: Stamp)
    ensures RecentDenials(log + [Denied(ip, s)], ip, s.at) == RecentDenials(log, ip, s.at) + 1
  {
    PastSnoc(log, Denied(ip, s), ip);
    var h := PastOf(log, ip).denied;
    CountAgrees(h + [s], h, |h|, s.at - MINUTE);
  }
}
