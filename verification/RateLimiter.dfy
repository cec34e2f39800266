/** The request limiter (src/rate_limiter.cpp): per-address queues trimmed lazily, stale clients evicted,
    temporary blocks, and one global event counter, all bounded. Each method runs under the mutex; `now`
    is the clock it read, nondecreasing in lock order. The class carries the full history as a ghost and
    its invariant says that, for every address, the bounded state answers as the history would. */
module RateLimiter {
  import opened Basics
  import opened RateHistory
  import opened Sums

  const MAX_CLIENTS: nat := 1024
  const MAX_EVENTS: nat := 131072
  const STALE: int := 15 * MINUTE
  const CLEANUP_EVERY: int := 10 * MINUTE

  datatype Client = Client(requests: seq<int>, denials: seq<int>, blockedUntil: int, lastSeen: int)

  const NEW_CLIENT: Client := Client([], [], 0, 0)

  // ---------------------------------------------------------------- queues

  /** What `trim` leaves: the queue from its first value after the cutoff on. */
  function Trimmed(values: seq<int>, cutoff: int): (rest: seq<int>)
    ensures |rest| <= |values|
  {
    if values == [] || values[0] > cutoff then values else Trimmed(values[1..], cutoff)
  }

  method Trim(values: seq<int>, cutoff: int) returns (rest: seq<int>, removed: nat)
    ensures rest == Trimmed(values, cutoff) && removed == |values| - |rest|
  {
    rest, removed := values, 0;
    while rest != [] && rest[0] <= cutoff
      invariant Trimmed(rest, cutoff) == Trimmed(values, cutoff)
      invariant removed == |values| - |rest|
    {
      rest, removed := rest[1..], removed + 1;
    }
  }

  /** How many values of a queue have left the minute. */
  function Outdated(values: seq<int>, now: int): (n: nat) {
    |values| - |Trimmed(values, now - MINUTE)|
  }

  /** A queue that holds the end of a history; whatever it has lost is not after the cutoff. */
  predicate Tail(h: seq<Stamp>, kept: seq<int>, cutoff: int) {
    && |kept| <= |h|
    && (forall i :: 0 <= i < |kept| ==> kept[i] == h[|h| - |kept| + i].at)
    && (forall i :: 0 <= i < |h| - |kept| ==> h[i].at <= cutoff)
  }

  lemma {:induction false} CountSplit(h: seq<Stamp>, n: nat, k: nat, cutoff: int)
    requires k <= n <= |h|
    requires forall i :: 0 <= i < k ==> h[i].at <= cutoff
    requires forall i :: k <= i < n ==> h[i].at > cutoff
    ensures CountAfter(h, n, cutoff) == n - k
    decreases n
  {
    if n > k {
      CountSplit(h, n - 1, k, cutoff);
    } else if n > 0 {
      CountSplit(h, n - 1, n - 1, cutoff);
    }
  }

  /** Trimming a tail of an ordered history leaves exactly its moments after the cutoff. */
  lemma {:induction false} TrimExact(h: seq<Stamp>, kept: seq<int>, before: int, cutoff: int)
    requires Tail(h, kept, before) && Nondecreasing(h) && before <= cutoff
    ensures Tail(h, Trimmed(kept, cutoff), cutoff)
    ensures |Trimmed(kept, cutoff)| == CountAfter(h, |h|, cutoff)
    decreases |kept|
  {
    if kept == [] || kept[0] > cutoff {
      var k := |h| - |kept|;
      forall i | k <= i < |h| ensures h[i].at > cutoff {
        assert kept[i - k] == h[i].at && kept[0] == h[k].at;
      }
      CountSplit(h, |h|, k, cutoff);
    } else {
      assert kept[0] == h[|h| - |kept|].at;
      TrimExact(h, kept[1..], cutoff, cutoff);
    }
  }

  // ---------------------------------------------------------------- one address

  /** The history is ordered and not in the future. */
  predicate PastOk(p: Past, clock: int) {
    && Nondecreasing(p.accepted) && Nondecreasing(p.denied) && Paced(p.accepted)
    && (forall i :: 0 <= i < |p.accepted| ==> p.accepted[i].at <= clock)
    && (forall i :: 0 <= i < |p.denied| ==> p.denied[i].at <= clock)
  }

  /** A client answers as its history would: its queues hold everything of the last minute, and it is
      blocked from now on exactly when the history says so. */
  predicate Answers(p: Past, c: Client, clock: int) {
    && Tail(p.accepted, c.requests, clock - MINUTE)
    && Tail(p.denied, c.denials, clock - MINUTE)
    && Max(c.blockedUntil, clock) == Max(p.until, clock)
  }

  predicate ClientOk(p: Past, c: Client, clock: int) {
    PastOk(p, clock) && Answers(p, c, clock)
  }

  /** Nothing in a client's queues is later than its last sighting. */
  predicate SeenOk(c: Client, clock: int) {
    && c.lastSeen <= clock
    && (forall i :: 0 <= i < |c.requests| ==> c.requests[i] <= c.lastSeen)
    && (forall i :: 0 <= i < |c.denials| ==> c.denials[i] <= c.lastSeen)
  }

  lemma ClockAdvances(p: Past, c: Client, clock: int, now: int)
    requires ClientOk(p, c, clock) && clock <= now
    ensures ClientOk(p, c, now)
  {
  }

  /** A stale client has nothing left that matters, so a new one answers the same. */
  lemma StaleIsNew(p: Past, c: Client, now: int)
    requires ClientOk(p, c, now) && SeenOk(c, now) && now >= 0
    requires c.lastSeen < now - STALE && c.blockedUntil <= now
    ensures ClientOk(p, NEW_CLIENT, now)
  {
    forall i | 0 <= i < |p.accepted| ensures p.accepted[i].at <= now - MINUTE {
      var k := |p.accepted| - |c.requests|;
      assert i >= k ==> c.requests[i - k] == p.accepted[i].at;
    }
    forall i | 0 <= i < |p.denied| ensures p.denied[i].at <= now - MINUTE {
      var k := |p.denied| - |c.denials|;
      assert i >= k ==> c.denials[i - k] == p.denied[i].at;
    }
  }

  /** Accepting a request: the queue gains it, the history gains it. */
  lemma AcceptOk(p: Past, c: Client, now: int, limit: nat)
    requires ClientOk(p, c, now) && CountAfter(p.accepted, |p.accepted|, now - MINUTE) < limit
    ensures ClientOk(p.(accepted := p.accepted + [Stamp(now, limit)]), c.(requests := c.requests + [now], lastSeen := now), now)
  {
    PacedSnoc(p.accepted, Stamp(now, limit));
  }

  lemma DenyOk(p: Past, c: Client, now: int, limit: nat)
    requires ClientOk(p, c, now)
    ensures ClientOk(p.(denied := p.denied + [Stamp(now, limit)]), c.(denials := c.denials + [now], lastSeen := now), now)
  {
  }

  lemma BlockOk(p: Past, c: Client, now: int, until: int)
    requires ClientOk(p, c, now)
    ensures ClientOk(p.(denied := [], until := until), c.(denials := [], blockedUntil := until, lastSeen := now), now)
  {
  }

  lemma TrimRequestsOk(p: Past, c: Client, now: int)
    requires ClientOk(p, c, now)
    ensures ClientOk(p, c.(requests := Trimmed(c.requests, now - MINUTE), lastSeen := now), now)
    ensures |Trimmed(c.requests, now - MINUTE)| == CountAfter(p.accepted, |p.accepted|, now - MINUTE)
  {
    TrimExact(p.accepted, c.requests, now - MINUTE, now - MINUTE);
  }

  lemma TrimDenialsOk(p: Past, c: Client, now: int)
    requires ClientOk(p, c, now)
    ensures ClientOk(p, c.(denials := Trimmed(c.denials, now - MINUTE), lastSeen := now), now)
    ensures |Trimmed(c.denials, now - MINUTE)| == CountAfter(p.denied, |p.denied|, now - MINUTE)
  {
    TrimExact(p.denied, c.denials, now - MINUTE, now - MINUTE);
  }

  lemma {:induction false} TrimmedBound(values: seq<int>, cutoff: int, bound: int)
    requires forall i :: 0 <= i < |values| ==> values[i] <= bound
    ensures forall i :: 0 <= i < |Trimmed(values, cutoff)| ==> Trimmed(values, cutoff)[i] <= bound
    decreases |values|
  {
    if values != [] && values[0] <= cutoff {
      TrimmedBound(values[1..], cutoff, bound);
    }
  }

  // ---------------------------------------------------------------- all addresses

  function View(clients: map<Ip, Client>, ip: Ip): (c: Client) {
    if ip in clients then clients[ip] else NEW_CLIENT
  }

  ghost predicate Refines(log: seq<Event>, clients: map<Ip, Client>, clock: int) {
    forall ip :: ClientOk(PastOf(log, ip), View(clients, ip), clock)
  }

  ghost predicate Seen(clients: map<Ip, Client>, clock: int) {
    forall ip :: ip in clients ==> SeenOk(clients[ip], clock)
  }

  function EventsOf(c: Client): (n: nat) {
    |c.requests| + |c.denials|
  }

  ghost function Loads(clients: map<Ip, Client>): (w: map<Ip, nat>)
    ensures w.Keys == clients.Keys
  {
    map ip | ip in clients :: EventsOf(clients[ip])
  }

  /** All queued events. */
  ghost function TotalEvents(clients: map<Ip, Client>): (n: nat) {
    Sum(Loads(clients), clients.Keys)
  }

  lemma TotalWithout(clients: map<Ip, Client>, ip: Ip)
    ensures TotalEvents(clients) == TotalEvents(clients - {ip}) + EventsOf(View(clients, ip))
    ensures |clients - {ip}| == |clients| - if ip in clients then 1 else 0
  {
    var rest := clients - {ip};
    assert |rest| == |rest.Keys| && |clients| == |clients.Keys|;
    if ip in clients {
      assert rest.Keys == clients.Keys - {ip};
      SumTake(Loads(clients), clients.Keys, ip);
      SumAgree(Loads(clients), Loads(rest), rest.Keys);
    } else {
      assert rest == clients;
    }
  }

  lemma TotalUpdated(clients: map<Ip, Client>, ip: Ip, c: Client)
    ensures TotalEvents(clients[ip := c]) == TotalEvents(clients) - EventsOf(View(clients, ip)) + EventsOf(c)
    ensures |clients[ip := c]| == |clients| + if ip in clients then 0 else 1
  {
    TotalWithout(clients, ip);
    TotalWithout(clients[ip := c], ip);
    assert clients[ip := c] - {ip} == clients - {ip};
  }

  /** One address changes state and history, the others neither. */
  lemma RefinesUpdated(log: seq<Event>, clients: map<Ip, Client>, clock: int, ip: Ip, c: Client, e: Event)
    requires Refines(log, clients, clock)
    requires (e.Accepted? || e.Denied? || e.Blocked?) && e.ip == ip
    requires ClientOk(Push(PastOf(log, ip), ip, e), c, clock)
    ensures Refines(log + [e], clients[ip := c], clock)
  {
    forall other ensures ClientOk(PastOf(log + [e], other), View(clients[ip := c], other), clock) {
      PastSnoc(log, e, other);
      assert ClientOk(PastOf(log, other), View(clients, other), clock);
    }
  }

  lemma RefinesTouched(log: seq<Event>, clients: map<Ip, Client>, clock: int, ip: Ip, c: Client)
    requires Refines(log, clients, clock) && ClientOk(PastOf(log, ip), c, clock)
    ensures Refines(log, clients[ip := c], clock)
  {
    forall other ensures ClientOk(PastOf(log, other), View(clients[ip := c], other), clock) {
      assert ClientOk(PastOf(log, other), View(clients, other), clock);
    }
  }

  lemma RefinesLater(log: seq<Event>, clients: map<Ip, Client>, clock: int, now: int)
    requires Refines(log, clients, clock) && Seen(clients, clock) && clock <= now
    ensures Refines(log, clients, now) && Seen(clients, now)
  {
    forall ip ensures ClientOk(PastOf(log, ip), View(clients, ip), now) {
      ClockAdvances(PastOf(log, ip), View(clients, ip), clock, now);
    }
  }

  lemma RefinesEvicted(log: seq<Event>, clients: map<Ip, Client>, now: int, ip: Ip)
    requires Refines(log, clients, now) && Seen(clients, now) && now >= 0
    requires ip in clients && clients[ip].lastSeen < now - STALE && clients[ip].blockedUntil <= now
    ensures Refines(log, clients - {ip}, now) && Seen(clients - {ip}, now)
  {
    forall other ensures ClientOk(PastOf(log, other), View(clients - {ip}, other), now) {
      assert ClientOk(PastOf(log, other), View(clients, other), now);
      if other == ip {
        StaleIsNew(PastOf(log, ip), clients[ip], now);
      }
    }
  }

  lemma RefinesForgotten(log: seq<Event>, clients: map<Ip, Client>, clock: int, ip: Ip)
    requires Refines(log, clients, clock)
    ensures Refines(log + [Forgot(ip)], clients - {ip}, clock)
  {
    forall other ensures ClientOk(PastOf(log + [Forgot(ip)], other), View(clients - {ip}, other), clock) {
      PastSnoc(log, Forgot(ip), other);
      assert ClientOk(PastOf(log, other), View(clients, other), clock);
    }
  }

  lemma RefinesCleared(log: seq<Event>, clock: int)
    ensures Refines(log + [Cleared], map[], clock)
  {
    forall other ensures ClientOk(PastOf(log + [Cleared], other), View(map[], other), clock) {
      PastSnoc(log, Cleared, other);
    }
  }

  // ---------------------------------------------------------------- the limiter

  predicate Stale(c: Client, now: int) {
    c.lastSeen < now - STALE && c.blockedUntil <= now
  }

  /** The clients a clean-up at `now` keeps. */
  function Kept(clients: map<Ip, Client>, now: int): (r: map<Ip, Client>) {
    map ip | ip in clients && !Stale(clients[ip], now) :: clients[ip]
  }

  /** The clients while the clean-up still has to look at `todo`. */
  function KeptBut(clients: map<Ip, Client>, now: int, todo: set<Ip>): (r: map<Ip, Client>)
    ensures todo == {} ==> r == Kept(clients, now)
  {
    map ip | ip in clients && (ip in todo || !Stale(clients[ip], now)) :: clients[ip]
  }

  lemma KeepStep(clients: map<Ip, Client>, now: int, todo: set<Ip>, ip: Ip)
    requires ip in todo && ip in clients
    ensures var r := KeptBut(clients, now, todo);
            && ip in r && r[ip] == clients[ip]
            && KeptBut(clients, now, todo - {ip}) == if Stale(clients[ip], now) then r - {ip} else r
  {
  }

  /** The clients after the clean-up that every call begins with. */
  function Cleaned(clients: map<Ip, Client>, nextCleanup: int, now: int): (r: map<Ip, Client>) {
    if nextCleanup == 0 || now >= nextCleanup then Kept(clients, now) else clients
  }

  /** The clients after an entry for `ip` has been looked for, and made if there is room. */
  function Room(clients: map<Ip, Client>, ip: Ip, now: int): (r: map<Ip, Client>) {
    if ip in clients then clients
    else
      var eased := if |clients| >= MAX_CLIENTS then Kept(clients, now) else clients;
      if |eased| >= MAX_CLIENTS then eased else eased[ip := NEW_CLIENT]
  }

  /** The clients when the entry of `ip` is examined. */
  function Arrived(clients: map<Ip, Client>, nextCleanup: int, ip: Ip, now: int): (r: map<Ip, Client>) {
    Room(Cleaned(clients, nextCleanup, now), ip, now)
  }

  /** Clients that are not stale hold the whole table. */
  predicate TableFull(clients: map<Ip, Client>, now: int) {
    |clients| >= MAX_CLIENTS && forall ip :: ip in clients ==> !Stale(clients[ip], now)
  }

  lemma NoRoom(clients: map<Ip, Client>, nextCleanup: int, ip: Ip, now: int)
    ensures ip !in Arrived(clients, nextCleanup, ip, now) ==> TableFull(Arrived(clients, nextCleanup, ip, now), now)
  {
  }

  /** The event store is full even without so many outdated events. */
  ghost predicate StoreFull(clients: map<Ip, Client>, outdated: nat) { TotalEvents(clients) - outdated >= MAX_EVENTS }

  /** What the history gains when a denial is recorded: the denial, and a block when it is one too many. */
  function Verdict(p: Past, ip: Ip, limit: nat, until: int, now: int): (events: seq<Event>) {
    var denied := Denied(ip, Stamp(now, limit));
    if CountAfter(p.denied, |p.denied|, now - MINUTE) + 1 >= limit then [denied, Blocked(ip, now, until, false)] else [denied]
  }

  /** When a block that starts now ends. */
  function BlockEnd(now: int, blockSeconds: nat): (until: int) { now + blockSeconds * SECOND }

  /** The same when the event store may be full, in which case the address is blocked at once. */
  ghost function Consequence(p: Past, ip: Ip, limit: nat, until: int, now: int, full: bool): (events: seq<Event>) {
    if full then [Blocked(ip, now, until, true)] else Verdict(p, ip, limit, until, now)
  }

  /** A block of so many minutes is as long as so many windows. */
  lemma BlockUnits(now: int, minutes: nat)
    ensures BlockEnd(now, 60 * minutes) == now + minutes * MINUTE
  {
  }

  lemma ConsequenceJudged(log: seq<Event>, ip: Ip, limit: nat, until: int, now: int, full: bool)
    requires Judged(log)
    ensures Judged(log + Consequence(PastOf(log, ip), ip, limit, until, now, full))
  {
    if full {
      JudgedOther(log, Blocked(ip, now, until, true));
    } else if RecentDenials(log, ip, now) + 1 >= limit {
      JudgedBlock(log, ip, Stamp(now, limit), until);
    } else {
      JudgedDenial(log, ip, Stamp(now, limit));
    }
  }

  class Limiter {
    var clients: map<Ip, Client>
    var nextCleanup: int
    var eventCount: nat
    ghost var log: seq<Event>
    ghost var clock: int

    ghost predicate Valid()
      reads this
    {
      && clock >= 0
      && Refines(log, clients, clock) && Seen(clients, clock) && BlocksInOrder(log, clock)
      && eventCount == TotalEvents(clients) <= MAX_EVENTS
      && |clients| <= MAX_CLIENTS
    }

    constructor ()
      ensures Valid() && clients == map[] && eventCount == 0 && log == [] && clock == 0 && Judged(log)
    {
      clients, nextCleanup, eventCount, log, clock := map[], 0, 0, [], 0;
      new;
      assert forall ip :: PastOf(log, ip) == NOTHING;
    }

    /** The clock reading of the method that holds the lock. */
    ghost method ReadClock(now: int)
      requires Valid() && clock <= now
      modifies this`clock
      ensures Valid() && clock == now
    {
      RefinesLater(log, clients, clock, now);
      BlocksLater(log, clock, now);
      clock := now;
    }

    /** Whether an unforced clean-up does anything. */
    predicate CleanupDue(now: int)
      reads this`nextCleanup
    {
      nextCleanup == 0 || now >= nextCleanup
    }

    /** Erase stale clients one by one; the history keeps them, and nothing they would have answered
        differently is lost. */
    method Cleanup(now: int, force: bool)
      requires Valid() && clock == now
      modifies this`clients, this`nextCleanup, this`eventCount
      ensures Valid()
      ensures clients == (if force || old(CleanupDue(now)) then Kept(old(clients), now) else old(clients))
      ensures nextCleanup == if force || old(CleanupDue(now)) then now + CLEANUP_EVERY else old(nextCleanup)
      ensures eventCount <= old(eventCount)
    {
      if !force && nextCleanup != 0 && now < nextCleanup {
        return;
      }
      ghost var whole := clients;
      var todo := clients.Keys;
      assert clients == KeptBut(whole, now, todo);
      while todo != {}
        invariant Valid() && todo <= whole.Keys && clients == KeptBut(whole, now, todo)
        invariant eventCount <= old(eventCount)
        decreases |todo|
      {
        var ip :| ip in todo;
        KeepStep(whole, now, todo, ip);
        if Stale(clients[ip], now) {
          Evict(ip, now);
        }
        todo := todo - {ip};
      }
      nextCleanup := now + CLEANUP_EVERY;
    }

    method Evict(ip: Ip, now: int)
      requires Valid() && clock == now && ip in clients && Stale(clients[ip], now)
      modifies this`clients, this`eventCount
      ensures Valid() && clients == old(clients) - {ip} && eventCount <= old(eventCount)
    {
      RefinesEvicted(log, clients, now, ip);
      TotalWithout(clients, ip);
      eventCount := eventCount - EventsOf(clients[ip]);
      clients := clients - {ip};
    }

    /** The entry of an address, created if there is room (lines 29-36). */
    method FindOrCreate(ip: Ip, now: int) returns (found: bool)
      requires Valid() && clock == now
      modifies this`clients, this`nextCleanup, this`eventCount
      ensures Valid() && clients == Room(old(clients), ip, now)
      ensures found <==> ip in clients
      ensures !found ==> TableFull(clients, now)
    {
      if ip in clients {
        return true;
      }
      if |clients| >= MAX_CLIENTS {
        Cleanup(now, true);
      }
      if |clients| >= MAX_CLIENTS {
        return false;
      }
      Touch(ip, NEW_CLIENT, now);
      found := true;
    }

    /** Replace an address's entry by one that answers the same history, and keep the count. */
    method Touch(ip: Ip, c: Client, now: int)
      requires Valid() && clock == now
      requires ClientOk(PastOf(log, ip), c, now) && SeenOk(c, now)
      requires ip in clients || |clients| < MAX_CLIENTS
      requires EventsOf(c) <= EventsOf(View(clients, ip))
      modifies this`clients, this`eventCount
      ensures Valid() && clients == old(clients)[ip := c]
      ensures eventCount == old(eventCount) - EventsOf(View(old(clients), ip)) + EventsOf(c)
    {
      RefinesTouched(log, clients, now, ip, c);
      TotalUpdated(clients, ip, c);
      ViewBound(clients, ip);
      eventCount := eventCount - (EventsOf(View(clients, ip)) - EventsOf(c));
      clients := clients[ip := c];
    }

    /** Replace an entry and extend the history by what happened to the address. */
    method Append(ip: Ip, c: Client, now: int, ghost e: Event)
      requires Valid() && clock == now && ip in clients
      requires (e.Accepted? || e.Denied? || e.Blocked?) && e.ip == ip
      requires ClientOk(Push(PastOf(log, ip), ip, e), c, now) && SeenOk(c, now) && (e.Blocked? ==> e.at == now)
      requires eventCount - EventsOf(clients[ip]) + EventsOf(c) <= MAX_EVENTS
      modifies this`clients, this`eventCount, this`log
      ensures Valid() && clients == old(clients)[ip := c] && log == old(log) + [e]
      ensures eventCount == old(eventCount) - EventsOf(old(clients)[ip]) + EventsOf(c)
    {
      RefinesUpdated(log, clients, now, ip, c, e);
      BlocksSnoc(log, e, now);
      TotalUpdated(clients, ip, c);
      ViewBound(clients, ip);
      eventCount := eventCount - EventsOf(clients[ip]) + EventsOf(c);
      clients := clients[ip := c];
      log := log + [e];
    }

    /** A request is accepted exactly when fewer than `limit` accepted requests of the full history lie
        in the minute before it, the address has or can get an entry, and the event store has room. Only
        accepted requests are recorded. */
    method RequestExceeded(ip: Ip, limit: nat, now: int) returns (exceeded: bool)
      requires Valid() && clock <= now
      modifies this
      ensures Valid() && clock == now
      ensures var h := PastOf(old(log), ip).accepted;
              var arrived := Arrived(old(clients), old(nextCleanup), ip, now);
              && (ip !in arrived ==> TableFull(arrived, now))
              && (exceeded <==>
                    || CountAfter(h, |h|, now - MINUTE) >= limit
                    || ip !in arrived || StoreFull(arrived, Outdated(arrived[ip].requests, now)))
      ensures log == if exceeded then old(log) else old(log) + [Accepted(ip, Stamp(now, limit))]
      ensures old(Judged(log)) ==> Judged(log)
    {
      ghost var h := log;
      if Judged(h) {
        JudgedOther(h, Accepted(ip, Stamp(now, limit)));
      }
      NoRoom(clients, nextCleanup, ip, now);
      ReadClock(now);
      Cleanup(now, false);
      if limit == 0 {
        return true;
      }
      var found := FindOrCreate(ip, now);
      if !found {
        return true;
      }
      exceeded := Decide(ip, limit, now);
    }

    /** Note the sighting and drop what has left the minute (lines 53-54); what stays is what the
        history has after the cutoff. */
    method TrimRequests(ip: Ip, now: int)
      requires Valid() && clock == now && ip in clients
      modifies this`clients, this`eventCount
      ensures Valid() && ip in clients && eventCount == old(eventCount) - Outdated(old(clients)[ip].requests, now)
      ensures clients[ip] == old(clients)[ip].(requests := Trimmed(old(clients)[ip].requests, now - MINUTE), lastSeen := now)
      ensures var h := PastOf(log, ip).accepted; |clients[ip].requests| == CountAfter(h, |h|, now - MINUTE)
    {
      var c := clients[ip];
      assert ClientOk(PastOf(log, ip), View(clients, ip), now);
      var rest, removed := Trim(c.requests, now - MINUTE);
      TrimRequestsOk(PastOf(log, ip), c, now);
      TrimmedBound(c.requests, now - MINUTE, now);
      Touch(ip, c.(requests := rest, lastSeen := now), now);
    }

    /** The decision for an address that has an entry (lines 53-62). */
    method Decide(ip: Ip, limit: nat, now: int) returns (exceeded: bool)
      requires Valid() && clock == now && ip in clients
      modifies this`clients, this`eventCount, this`log
      ensures Valid()
      ensures var h := PastOf(old(log), ip).accepted;
              exceeded <==>
                || CountAfter(h, |h|, now - MINUTE) >= limit
                || old(eventCount) - Outdated(old(clients)[ip].requests, now) >= MAX_EVENTS
      ensures log == if exceeded then old(log) else old(log) + [Accepted(ip, Stamp(now, limit))]
    {
      TrimRequests(ip, now);
      if |clients[ip].requests| >= limit || eventCount >= MAX_EVENTS {
        return true;
      }
      PushRequest(ip, limit, now);
      exceeded := false;
    }

    method PushRequest(ip: Ip, limit: nat, now: int)
      requires Valid() && clock == now && ip in clients && clients[ip].lastSeen == now && eventCount < MAX_EVENTS
      requires var h := PastOf(log, ip).accepted; CountAfter(h, |h|, now - MINUTE) < limit
      modifies this`clients, this`eventCount, this`log
      ensures Valid() && log == old(log) + [Accepted(ip, Stamp(now, limit))]
    {
      var c := clients[ip];
      assert ClientOk(PastOf(log, ip), View(clients, ip), now);
      AcceptOk(PastOf(log, ip), c, now, limit);
      Append(ip, c.(requests := c.requests + [now]), now, Accepted(ip, Stamp(now, limit)));
    }

    method PushDenial(ip: Ip, limit: nat, now: int)
      requires Valid() && clock == now && ip in clients && clients[ip].lastSeen == now && eventCount < MAX_EVENTS
      modifies this`clients, this`eventCount, this`log
      ensures Valid() && log == old(log) + [Denied(ip, Stamp(now, limit))]
      ensures ip in clients && clients[ip] == old(clients)[ip].(denials := old(clients)[ip].denials + [now])
    {
      var c := clients[ip];
      assert ClientOk(PastOf(log, ip), View(clients, ip), now);
      DenyOk(PastOf(log, ip), c, now, limit);
      Append(ip, c.(denials := c.denials + [now]), now, Denied(ip, Stamp(now, limit)));
    }

    /** The same for denials (lines 72-73). */
    method TrimDenials(ip: Ip, now: int)
      requires Valid() && clock == now && ip in clients
      modifies this`clients, this`eventCount
      ensures Valid() && ip in clients && eventCount == old(eventCount) - Outdated(old(clients)[ip].denials, now)
      ensures clients[ip] == old(clients)[ip].(denials := Trimmed(old(clients)[ip].denials, now - MINUTE), lastSeen := now)
      ensures var h := PastOf(log, ip).denied; |clients[ip].denials| == CountAfter(h, |h|, now - MINUTE)
    {
      var c := clients[ip];
      assert ClientOk(PastOf(log, ip), View(clients, ip), now);
      var rest, removed := Trim(c.denials, now - MINUTE);
      TrimDenialsOk(PastOf(log, ip), c, now);
      TrimmedBound(c.denials, now - MINUTE, now);
      Touch(ip, c.(denials := rest, lastSeen := now), now);
    }

    /** Block the address and forget the denials that led to it. */
    method Block(ip: Ip, until: int, now: int, ghost full: bool)
      requires Valid() && clock == now && ip in clients && clients[ip].lastSeen == now
      modifies this`clients, this`eventCount, this`log
      ensures Valid() && log == old(log) + [Blocked(ip, now, until, full)]
    {
      assert ClientOk(PastOf(log, ip), View(clients, ip), now);
      BlockOk(PastOf(log, ip), clients[ip], now, until);
      Append(ip, clients[ip].(denials := [], blockedUntil := until), now, Blocked(ip, now, until, full));
    }

    /** Push one denial of an address with an entry and block it if that makes too many (lines 80-86). */
    method Strike(ip: Ip, limit: nat, until: int, now: int)
      requires Valid() && clock == now && ip in clients && clients[ip].lastSeen == now && eventCount < MAX_EVENTS
      requires var h := PastOf(log, ip).denied; |clients[ip].denials| == CountAfter(h, |h|, now - MINUTE)
      modifies this`clients, this`eventCount, this`log
      ensures Valid() && log == old(log) + Verdict(PastOf(old(log), ip), ip, limit, until, now)
    {
      TwoMore(log, Denied(ip, Stamp(now, limit)), Blocked(ip, now, until, false));
      PushDenial(ip, limit, now);
      if limit == 0 || |clients[ip].denials| >= limit {
        Block(ip, until, now, false);
      }
    }

    /** A denial with a strike: when the denials of the last minute reach the limit, the address is
        blocked from now for the given time and its denials start over. A full client table ignores the
        denial; a full event store blocks at once. */
    method RecordDenial(ip: Ip, limit: nat, blockSeconds: nat, now: int)
      requires Valid() && clock <= now
      modifies this
      ensures Valid() && clock == now
      ensures var arrived := Arrived(old(clients), old(nextCleanup), ip, now);
              if ip !in arrived then TableFull(arrived, now) && log == old(log)
              else log == old(log) + Consequence(PastOf(old(log), ip), ip, limit, BlockEnd(now, blockSeconds), now,
                                                 StoreFull(arrived, Outdated(arrived[ip].denials, now)))
      ensures old(Judged(log)) ==> Judged(log)
    {
      ghost var h := log;
      var found := Arrive(ip, now);
      if found {
        ghost var full := Deny(ip, limit, BlockEnd(now, blockSeconds), now);
        if Judged(h) {
          ConsequenceJudged(h, ip, limit, BlockEnd(now, blockSeconds), now, full);
        }
      }
    }

    /** The denial of an address with an entry (lines 72-86); the store is full if it is so after the
        address's old denials have gone. */
    method Deny(ip: Ip, limit: nat, until: int, now: int) returns (ghost full: bool)
      requires Valid() && clock == now && ip in clients
      modifies this`clients, this`eventCount, this`log
      ensures Valid() && full == (old(eventCount) - Outdated(old(clients)[ip].denials, now) >= MAX_EVENTS)
      ensures log == old(log) + Consequence(PastOf(old(log), ip), ip, limit, until, now, full)
    {
      TrimDenials(ip, now);
      full := eventCount >= MAX_EVENTS;
      if eventCount >= MAX_EVENTS {
        Block(ip, until, now, true);
      } else {
        Strike(ip, limit, until, now);
      }
    }

    /** What recording a denial does first: read the clock, clean up, find the address's entry. */
    method Arrive(ip: Ip, now: int) returns (found: bool)
      requires Valid() && clock <= now
      modifies this`clients, this`nextCleanup, this`eventCount, this`clock
      ensures Valid() && clock == now && clients == Arrived(old(clients), old(nextCleanup), ip, now)
      ensures found <==> ip in clients
      ensures !found ==> TableFull(clients, now)
    {
      ReadClock(now);
      Cleanup(now, false);
      found := FindOrCreate(ip, now);
    }

    /** An address is blocked exactly as the history's latest block says, however long ago its entry was
        cleaned up. */
    method IsBlocked(ip: Ip, now: int) returns (blocked: bool)
      requires Valid() && clock <= now
      modifies this`clients, this`nextCleanup, this`eventCount, this`clock
      ensures Valid() && clock == now
      ensures blocked <==> PastOf(log, ip).until > now
    {
      ReadClock(now);
      Cleanup(now, false);
      assert ClientOk(PastOf(log, ip), View(clients, ip), now);
      blocked := ip in clients && clients[ip].blockedUntil > now;
    }

    /** In every reachable state: with a constant limit, no minute holds more accepted requests of one
        address than the limit. */
    lemma MinuteLimit(ip: Ip, limit: nat, t: int)
      requires Valid() && LimitsWithin(PastOf(log, ip).accepted, limit)
      ensures var h := PastOf(log, ip).accepted; CountMinute(h, |h|, t) <= limit
    {
      assert ClientOk(PastOf(log, ip), View(clients, ip), clock);
      var h := PastOf(log, ip).accepted;
      MinuteNeverExceeds(h, |h|, limit, t);
    }

    /** In every reachable state: with a constant block time, an address blocked at some moment and not
        forgotten since is, by `IsBlocked`, blocked at every moment before that time is over. */
    lemma BlockLasts(ip: Ip, from: nat, length: int)
      requires Valid() && from < |log| && log[from].Blocked? && log[from].ip == ip
      requires BlocksLast(log, ip, from, length) && NotForgotten(log, ip, from)
      ensures PastOf(log, ip).until >= log[from].at + length
    {
      BlocksExtend(log, clock, ip, from, length);
    }

    /** In every reachable state: with a constant limit, the denials of an address since it was last blocked
        or forgotten are fewer than the limit in any minute. */
    lemma DenialLimit(ip: Ip, limit: nat, t: int)
      requires Valid() && Judged(log) && limit >= 1 && LimitsWithin(PastOf(log, ip).denied, limit)
      ensures var h := PastOf(log, ip).denied; CountMinute(h, |h|, t) < limit
    {
      assert Spared(PastOf(log, ip).denied);
      var h := PastOf(log, ip).denied;
      MinuteNeverReaches(h, |h|, limit, t);
    }

    method Unblock(ip: Ip) returns (known: bool)
      requires Valid()
      modifies this`clients, this`eventCount, this`log
      ensures Valid() && known == (ip in old(clients))
      ensures clients == if known then old(clients) - {ip} else old(clients)
      ensures log == if known then old(log) + [Forgot(ip)] else old(log)
      ensures old(Judged(log)) ==> Judged(log)
    {
      ghost var h := log;
      if Judged(h) {
        JudgedOther(h, Forgot(ip));
      }
      if ip !in clients {
        return false;
      }
      RefinesForgotten(log, clients, clock, ip);
      BlocksSnoc(log, Forgot(ip), clock);
      TotalWithout(clients, ip);
      eventCount := eventCount - EventsOf(clients[ip]);
      clients, log := clients - {ip}, log + [Forgot(ip)];
      known := true;
    }

    method Clear()
      requires Valid()
      modifies this`clients, this`nextCleanup, this`eventCount, this`log
      ensures Valid() && clients == map[] && nextCleanup == 0 && eventCount == 0 && log == old(log) + [Cleared]
      ensures old(Judged(log)) ==> Judged(log)
    {
      ghost var h := log;
      if Judged(h) {
        JudgedOther(h, Cleared);
      }
      RefinesCleared(log, clock);
      BlocksSnoc(log, Cleared, clock);
      clients, nextCleanup, eventCount, log := map[], 0, 0, log + [Cleared];
    }
  }

  lemma TwoMore(log: seq<Event>, a: Event, b: Event)
    ensures log + [a] + [b] == log + [a, b]
  {
  }

  lemma ViewBound(clients: map<Ip, Client>, ip: Ip)
    ensures EventsOf(View(clients, ip)) <= TotalEvents(clients)
  {
    TotalWithout(clients, ip);
  }
}
