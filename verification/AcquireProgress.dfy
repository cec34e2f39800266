/** What `acquire` of the bandwidth limiter (src/bandwidth_limiter.cpp) gives its callers, over the same runs
    as `AcquireProtocol`: every call accepted is delivered its bytes through its buckets or still outstanding,
    a call that nobody disturbs waits exactly as long as its buckets ask for, and stopping ends it all. */
module AcquireProgress {
  import opened Basics
  import opened Numerals
  import opened Bandwidth
  import opened AcquireProtocol

  // ---------------------------------------------------------------- conservation

  /** What a call is owed: so many bytes, through these buckets. */
  datatype Demand = Demand(call: nat, bytes: nat, through: set<nat>)

  /** The limiter takes the call on. */
  predicate Accepts(s: State, e: Event) {
    e.Acquire? && !s.stopping && e.desired > 0 && e.call !in s.calls && IsRoute(s, e.route)
  }

  /** What it then owes: everything if nothing limits the call, else at most a quantum. */
  ghost function DemandOf(quantum: nat, e: Event): (d: Demand)
    requires e.Acquire?
  {
    Demand(e.call, if e.route == [] then e.desired else Min(e.desired, quantum), KeysOf(e.route))
  }

  /** Everything the calls accepted in a run are owed. */
  ghost function Demands(s: State, events: seq<Event>): (m: multiset<Demand>)
    decreases |events|
  {
    if events == [] then multiset{}
    else
      var front, e := events[..|events| - 1], events[|events| - 1];
      Demands(s, front) + (if Accepts(Run(s, front), e) then multiset{DemandOf(s.quantum, e)} else multiset{})
  }

  function DeliveryOf(d: Delivery): (r: Demand) { Demand(d.call, d.bytes, d.through) }

  ghost function Deliveries(ds: seq<Delivery>): (m: multiset<Demand>)
    decreases |ds|
  {
    if ds == [] then multiset{} else Deliveries(ds[..|ds| - 1]) + multiset{DeliveryOf(ds[|ds| - 1])}
  }

  ghost function CallDemand(id: nat, c: Call): (d: Demand) { Demand(id, c.bytes, c.held.Keys + KeysOf(c.todo)) }

  /** What outstanding calls are still owed. */
  ghost function Outstanding(calls: map<nat, Call>): (r: set<Demand>) { set id | id in calls :: CallDemand(id, calls[id]) }

  lemma DeliveriesSnoc(ds: seq<Delivery>, d: Delivery)
    ensures Deliveries(ds + [d]) == Deliveries(ds) + multiset{DeliveryOf(d)}
  {
    assert (ds + [d])[..|ds|] == ds;
  }

  lemma OutstandingNew(calls: map<nat, Call>, id: nat, c: Call)
    requires id !in calls
    ensures multiset(Outstanding(calls[id := c])) == multiset(Outstanding(calls)) + multiset{CallDemand(id, c)}
  {
    var calls' := calls[id := c];
    assert CallDemand(id, c) !in Outstanding(calls);
    assert Outstanding(calls') == Outstanding(calls) + {CallDemand(id, c)} by {
      forall d | d in Outstanding(calls) ensures d in Outstanding(calls') {
        var k :| k in calls && CallDemand(k, calls[k]) == d;
        assert k in calls' && calls'[k] == calls[k];
      }
      assert id in calls' && calls'[id] == c;
    }
  }

  lemma OutstandingGone(calls: map<nat, Call>, id: nat)
    requires id in calls
    ensures multiset(Outstanding(calls)) == multiset(Outstanding(calls - {id})) + multiset{CallDemand(id, calls[id])}
  {
    var rest := calls - {id};
    assert rest[id := calls[id]] == calls;
    OutstandingNew(rest, id, calls[id]);
  }

  lemma OutstandingSame(calls: map<nat, Call>, id: nat, c: Call)
    requires id in calls && CallDemand(id, c) == CallDemand(id, calls[id])
    ensures Outstanding(calls[id := c]) == Outstanding(calls)
  {
    var calls' := calls[id := c];
    forall d | d in Outstanding(calls) ensures d in Outstanding(calls') {
      var k :| k in calls && CallDemand(k, calls[k]) == d;
      assert k in calls' && CallDemand(k, calls'[k]) == d;
    }
    forall d | d in Outstanding(calls') ensures d in Outstanding(calls) {
      var k :| k in calls' && CallDemand(k, calls'[k]) == d;
      assert k in calls && CallDemand(k, calls[k]) == d;
    }
  }

  ghost function Settled(s: State): (m: multiset<Demand>) { Deliveries(s.delivered) + multiset(Outstanding(s.calls)) }

  lemma SwapDemand(cell: Cell, c: Call, id: nat, previous: int)
    requires c.todo != []
    ensures CallDemand(id, SwapCall(cell, c, previous)) == CallDemand(id, c)
  {
    var b := c.todo[0];
    assert c.todo == [b] + c.todo[1..];
    assert KeysOf(c.todo) == {b} + KeysOf(c.todo[1..]);
    assert SwapCall(cell, c, previous).held.Keys == c.held.Keys + {b};
  }

  lemma Moved(a: multiset<Demand>, b: multiset<Demand>, c: multiset<Demand>)
    ensures (a + c) + b == a + (b + c)
  {
  }

  lemma UnlimitedSettles(s: State, e: Event)
    requires Accepts(s, e) && e.route == []
    ensures Settled(Step(s, e)) == Settled(s) + multiset{DemandOf(s.quantum, e)}
  {
    var d := Delivery(e.call, e.desired, s.clock, {});
    assert Step(s, e) == s.(delivered := s.delivered + [d]);
    DeliveriesSnoc(s.delivered, d);
    assert KeysOf(e.route) == {};
    assert DeliveryOf(d) == DemandOf(s.quantum, e);
    Reordered(Deliveries(s.delivered), multiset(Outstanding(s.calls)), multiset{DeliveryOf(d)});
  }

  lemma Reordered(a: multiset<Demand>, b: multiset<Demand>, c: multiset<Demand>)
    ensures (a + c) + b == (a + b) + c && a + (b + c) == (a + b) + c
  {
  }

  lemma LimitedSettles(s: State, e: Event)
    requires Accepts(s, e) && e.route != []
    ensures Settled(Step(s, e)) == Settled(s) + multiset{DemandOf(s.quantum, e)}
  {
    var c := Call(Min(e.desired, s.quantum), s.clock, e.route, map[], s.clock, NotLoaded);
    assert Step(s, e) == s.(calls := s.calls[e.call := c]);
    OutstandingNew(s.calls, e.call, c);
    assert c.held.Keys + KeysOf(c.todo) == KeysOf(e.route);
    assert CallDemand(e.call, c) == DemandOf(s.quantum, e);
    Reordered(Deliveries(s.delivered), multiset(Outstanding(s.calls)), multiset{CallDemand(e.call, c)});
  }

  lemma AcquireSettles(s: State, e: Event)
    requires e.Acquire? && !s.stopping
    ensures Settled(Step(s, e)) == Settled(s) + (if Accepts(s, e) then multiset{DemandOf(s.quantum, e)} else multiset{})
  {
    if Accepts(s, e) {
      if e.route == [] {
        UnlimitedSettles(s, e);
      } else {
        LimitedSettles(s, e);
      }
    } else {
      assert Step(s, e) == s;
    }
  }

  lemma ReturnSettles(s: State, id: nat)
    requires !s.stopping
    ensures Settled(Step(s, Return(id))) == Settled(s)
  {
    if id in s.calls && s.calls[id].todo == [] && s.clock >= s.calls[id].allowed {
      var c := s.calls[id];
      var d := Delivery(id, c.bytes, s.clock, c.held.Keys);
      assert KeysOf(c.todo) == {} && c.held.Keys + {} == c.held.Keys;
      assert CallDemand(id, c) == DeliveryOf(d);
      OutstandingGone(s.calls, id);
      DeliveriesSnoc(s.delivered, d);
      Moved(Deliveries(s.delivered), multiset(Outstanding(s.calls - {id})), multiset{DeliveryOf(d)});
    }
  }

  lemma SwapSettles(s: State, id: nat, spurious: bool)
    ensures Settled(Step(s, Swap(id, spurious))) == Settled(s)
  {
    if id in s.calls && s.calls[id].todo != [] && s.calls[id].todo[0] in s.cells && s.calls[id].loaded.Loaded? {
      var c := s.calls[id];
      var cell := s.cells[c.todo[0]];
      SwapDemand(cell, c, id, c.loaded.arrival);
      OutstandingSame(s.calls, id, SwapCall(cell, c, c.loaded.arrival));
      OutstandingSame(s.calls, id, c.(loaded := Loaded(cell.arrival)));
    }
  }

  lemma LoadSettles(s: State, id: nat)
    ensures Settled(Step(s, Load(id))) == Settled(s)
  {
    if id in s.calls && s.calls[id].todo != [] && s.calls[id].todo[0] in s.cells {
      OutstandingSame(s.calls, id, s.calls[id].(loaded := Loaded(s.cells[s.calls[id].todo[0]].arrival)));
    }
  }

  lemma StepSettles(s: State, e: Event)
    requires !s.stopping
    ensures Settled(Step(s, e)) == Settled(s) + (if Accepts(s, e) then multiset{DemandOf(s.quantum, e)} else multiset{})
  {
    match e
    case Tick(_) =>
    case Attach(_, _) =>
    case Acquire(_, _, _) => AcquireSettles(s, e);
    case Load(id) => LoadSettles(s, id);
    case Swap(id, spurious) => SwapSettles(s, id, spurious);
    case Return(id) => ReturnSettles(s, id);
    case Stop =>
  }

  lemma StoppingStays(s: State, e: Event)
    ensures Step(s, e).quantum == s.quantum && (s.stopping || e == Stop <==> Step(s, e).stopping)
  {
  }

  lemma {:induction false} RunSettles(s: State, events: seq<Event>)
    requires Init(s) && !Run(s, events).stopping
    ensures Settled(Run(s, events)) == Demands(s, events) && Run(s, events).quantum == s.quantum
    decreases |events|
  {
    if events == [] {
      assert Outstanding(s.calls) == {};
    } else {
      var front, e := events[..|events| - 1], events[|events| - 1];
      StoppingStays(Run(s, front), e);
      RunSettles(s, front);
      StepSettles(Run(s, front), e);
    }
  }

  /** Nothing is lost over any run that has not been stopped: the calls accepted are, each exactly once,
      delivered or outstanding, with the bytes and the buckets they were accepted for. */
  lemma EveryCallCounts(s: State, events: seq<Event>)
    requires Init(s) && !Run(s, events).stopping
    ensures Deliveries(Run(s, events).delivered) + multiset(Outstanding(Run(s, events).calls)) == Demands(s, events)
  {
    RunSettles(s, events);
  }

  // ---------------------------------------------------------------- reservations

  /** Every reservation has been let through or is held by the outstanding call that made it. */
  ghost predicate Owned(s: State) {
    forall b, i {:trigger s.cells[b].log[i]} :: b in s.cells && 0 <= i < |s.cells[b].log| ==> EntryOwned(s, b, i)
  }

  predicate EntryOwned(s: State, b: nat, i: nat)
    requires b in s.cells && i < |s.cells[b].log|
  {
    var r := s.cells[b].log[i];
    r.granted.At? || (r.owner in s.calls && b in s.calls[r.owner].held && s.calls[r.owner].held[b] == i)
  }

  lemma SwapOwns(s: State, id: nat)
    requires Inv(s) && Owned(s) && id in s.calls && s.calls[id].todo != [] && s.calls[id].todo[0] in s.cells
    ensures var c := s.calls[id];
            var cell := s.cells[c.todo[0]];
            Owned(s.(cells := s.cells[c.todo[0] := SwapCell(cell, c, id, cell.arrival)],
                     calls := s.calls[id := SwapCall(cell, c, cell.arrival)]))
  {
    var c := s.calls[id];
    var x := c.todo[0];
    var cell := s.cells[x];
    var s' := s.(cells := s.cells[x := SwapCell(cell, c, id, cell.arrival)], calls := s.calls[id := SwapCall(cell, c, cell.arrival)]);
    assert CallOk(s, id, c) && x !in c.held;
    forall b, i | b in s'.cells && 0 <= i < |s'.cells[b].log| ensures EntryOwned(s', b, i) {
      if b == x && i == |cell.log| {
        assert s'.cells[b].log[i].owner == id;
      } else {
        assert s'.cells[b].log[i] == s.cells[b].log[i] && EntryOwned(s, b, i);
      }
    }
  }

  /** What marking does to one entry. */
  lemma MarkedEntry(cells: map<nat, Cell>, held: map<nat, nat>, time: int, b: nat, i: nat)
    requires b in cells && i < |MarkCells(cells, held, time)[b].log|
    ensures i < |cells[b].log|
    ensures var r, r' := cells[b].log[i], MarkCells(cells, held, time)[b].log[i];
            r'.owner == r.owner && (if b in held && held[b] == i then r'.granted.At? else r'.granted == r.granted)
  {
  }

  lemma ReturnOwns(s: State, id: nat)
    requires Owned(s) && id in s.calls
    ensures var c := s.calls[id];
            Owned(s.(cells := MarkCells(s.cells, c.held, s.clock), calls := s.calls - {id},
                     delivered := s.delivered + [Delivery(id, c.bytes, s.clock, c.held.Keys)]))
  {
    var c := s.calls[id];
    var s' := s.(cells := MarkCells(s.cells, c.held, s.clock), calls := s.calls - {id},
                 delivered := s.delivered + [Delivery(id, c.bytes, s.clock, c.held.Keys)]);
    forall b, i | b in s'.cells && 0 <= i < |s'.cells[b].log| ensures EntryOwned(s', b, i) {
      MarkedEntry(s.cells, c.held, s.clock, b, i);
      assert EntryOwned(s, b, i);
    }
  }

  /** A step that leaves the logs, and what the calls hold, alone. */
  lemma QuietOwns(s: State, s': State)
    requires Owned(s) && (forall b :: b in s'.cells ==> s'.cells[b].log == [] || (b in s.cells && s'.cells[b] == s.cells[b]))
    requires forall id :: id in s.calls ==> id in s'.calls && s'.calls[id].held == s.calls[id].held
    ensures Owned(s')
  {
    forall b, i | b in s'.cells && 0 <= i < |s'.cells[b].log| ensures EntryOwned(s', b, i) {
      assert EntryOwned(s, b, i);
    }
  }

  /** The steps that neither swap nor return. */
  lemma OtherOwns(s: State, e: Event)
    requires Owned(s) && !e.Swap? && !e.Return?
    ensures Owned(Step(s, e))
  {
    match e
    case Tick(_) => QuietOwns(s, Step(s, e));
    case Attach(_, _) => QuietOwns(s, Step(s, e));
    case Acquire(_, _, _) => QuietOwns(s, Step(s, e));
    case Load(_) => QuietOwns(s, Step(s, e));
    case Stop => QuietOwns(s, Step(s, e));
  }

  lemma SwapStepOwns(s: State, id: nat, spurious: bool)
    requires Inv(s) && Owned(s)
    ensures Owned(Step(s, Swap(id, spurious)))
  {
    if id in s.calls && s.calls[id].todo != [] && s.calls[id].todo[0] in s.cells && s.calls[id].loaded.Loaded? {
      if !spurious && s.cells[s.calls[id].todo[0]].arrival == s.calls[id].loaded.arrival {
        SwapOwns(s, id);
      } else {
        QuietOwns(s, Step(s, Swap(id, spurious)));
      }
    }
  }

  lemma StepOwns(s: State, e: Event)
    requires Inv(s) && Owned(s) && !s.stopping
    ensures Owned(Step(s, e))
  {
    if e.Swap? {
      SwapStepOwns(s, e.call, e.spurious);
    } else if e.Return? {
      if e.call in s.calls && s.calls[e.call].todo == [] && s.clock >= s.calls[e.call].allowed {
        ReturnOwns(s, e.call);
      }
    } else {
      OtherOwns(s, e);
    }
  }

  /** No reservation is wasted in a run that has not been stopped: each has been let through, and counts
      among the bytes delivered, or is still waited for by its own call. */
  lemma {:induction false} EveryReservationCounts(s: State, events: seq<Event>)
    requires Init(s) && !Run(s, events).stopping
    ensures Owned(Run(s, events))
    decreases |events|
  {
    if events != [] {
      var front, e := events[..|events| - 1], events[|events| - 1];
      StoppingStays(Run(s, front), e);
      EveryReservationCounts(s, front);
      RunKeeps(s, front);
      StepOwns(Run(s, front), e);
    }
  }

  // ---------------------------------------------------------------- stopping

  /** Once stopping, no call is accepted and none is delivered anything. */
  lemma {:induction false} StopEndsDeliveries(s: State, events: seq<Event>)
    requires s.stopping
    ensures var s' := Run(s, events); s'.stopping && s'.delivered == s.delivered && s'.calls.Keys <= s.calls.Keys
    decreases |events|
  {
    if events != [] {
      var front, e := events[..|events| - 1], events[|events| - 1];
      StopEndsDeliveries(s, front);
      StoppedStep(Run(s, front), e);
    }
  }

  lemma StoppedStep(s: State, e: Event)
    requires s.stopping
    ensures var s' := Step(s, e); s'.stopping && s'.delivered == s.delivered && s'.calls.Keys <= s.calls.Keys
  {
    match e
    case Tick(_) =>
    case Attach(_, _) =>
    case Acquire(_, _, _) =>
    case Load(_) =>
    case Swap(_, _) =>
    case Return(_) =>
    case Stop =>
  }

  /** A cancelled wait ends at once. */
  lemma StoppedCallReturns(s: State, id: nat)
    requires s.stopping && id in s.calls && s.calls[id].todo == []
    ensures id !in Step(s, Return(id)).calls
  {
  }

  // ---------------------------------------------------------------- the loop

  /** A swap that fails has read the bucket anew: if nobody comes in between, the next one succeeds, so two
      attempts reserve a bucket. */
  lemma SecondSwapReserves(s: State, id: nat)
    requires id in s.calls && s.calls[id].todo != [] && s.calls[id].todo[0] in s.cells && s.calls[id].loaded.Loaded?
    ensures var s' := Step(Step(s, Swap(id, false)), Swap(id, false));
            && id in s'.calls && s'.calls[id].todo == s.calls[id].todo[1..]
            && |s'.cells[s.calls[id].todo[0]].log| == |s.cells[s.calls[id].todo[0]].log| + 1
  {
    var c := s.calls[id];
    var cell := s.cells[c.todo[0]];
    var s1 := Step(s, Swap(id, false));
    if cell.arrival == c.loaded.arrival {
      assert s1.calls[id] == SwapCall(cell, c, cell.arrival) && s1.calls[id].loaded == NotLoaded;
      assert Step(s1, Swap(id, false)) == s1;
    } else {
      assert s1 == s.(calls := s.calls[id := c.(loaded := Loaded(cell.arrival))]);
    }
  }

  // ---------------------------------------------------------------- one call alone

  lemma RunTwo(s: State, events: seq<Event>, a: Event, b: Event)
    ensures Run(s, events + [a, b]) == Step(Step(Run(s, events), a), b)
  {
    var more := events + [a, b];
    assert more[..|more| - 1] == events + [a];
    assert (events + [a])[..|events|] == events;
  }

  /** A call and the loops on its first `n` buckets, with nobody in between. */
  function Reserving(id: nat, desired: nat, route: seq<nat>, n: nat): (events: seq<Event>) {
    if n == 0 then [Acquire(id, desired, route)] else Reserving(id, desired, route, n - 1) + [Load(id), Swap(id, false)]
  }

  /** The latest of the times the first `n` buckets of a route ask for. */
  function LatestAllowed(s: State, route: seq<nat>, n: nat): (t: int)
    requires n <= |route| && IsRoute(s, route)
  {
    if n == 0 then s.clock
    else Max(LatestAllowed(s, route, n - 1), Allowed(s.cells[route[n - 1]].bucket, s.cells[route[n - 1]].arrival, s.clock))
  }

  /** The state after that: the call holds its first `n` buckets, and nothing else has changed. */
  ghost predicate Reserved(s: State, s': State, id: nat, desired: nat, route: seq<nat>, n: nat)
    requires n <= |route| && IsRoute(s, route)
  {
    && s'.clock == s.clock && s'.delivered == s.delivered && s'.stopping == s.stopping && s'.quantum == s.quantum
    && s'.cells.Keys == s.cells.Keys && (forall k :: n <= k < |route| ==> s'.cells[route[k]] == s.cells[route[k]])
    && id in s'.calls
    && var c := s'.calls[id];
       && c.bytes == Min(desired, s.quantum) && c.now == s.clock && c.todo == route[n..]
       && c.held.Keys == KeysOf(route[..n]) && c.allowed == LatestAllowed(s, route, n)
  }

  lemma ReserveNext(s: State, s1: State, id: nat, desired: nat, route: seq<nat>, n: nat)
    requires IsRoute(s, route) && n < |route| && Reserved(s, s1, id, desired, route, n)
    ensures Reserved(s, Step(Step(s1, Load(id)), Swap(id, false)), id, desired, route, n + 1)
  {
    var b := route[n];
    var c := s1.calls[id];
    var cell := s1.cells[b];
    assert c.todo[0] == b && c.todo[1..] == route[n + 1..] && cell == s.cells[b];
    var s2 := Step(s1, Load(id));
    var c2 := c.(loaded := Loaded(cell.arrival));
    assert s2 == s1.(calls := s1.calls[id := c2]);
    var s3 := Step(s2, Swap(id, false));
    assert s3 == s2.(cells := s2.cells[b := SwapCell(cell, c2, id, cell.arrival)],
                     calls := s2.calls[id := SwapCall(cell, c2, cell.arrival)]);
    assert route[..n + 1] == route[..n] + [b];
    assert KeysOf(route[..n + 1]) == KeysOf(route[..n]) + {b};
  }

  lemma {:induction false} Reserves(s: State, id: nat, desired: nat, route: seq<nat>, n: nat)
    requires !s.stopping && desired > 0 && id !in s.calls && IsRoute(s, route) && route != [] && n <= |route|
    ensures Reserved(s, Run(s, Reserving(id, desired, route, n)), id, desired, route, n)
    decreases n
  {
    if n == 0 {
      var events := Reserving(id, desired, route, 0);
      assert events[..0] == [];
      assert Run(s, events) == Step(s, Acquire(id, desired, route));
      assert route[0..] == route && KeysOf(route[..0]) == {};
    } else {
      Reserves(s, id, desired, route, n - 1);
      RunTwo(s, Reserving(id, desired, route, n - 1), Load(id), Swap(id, false));
      ReserveNext(s, Run(s, Reserving(id, desired, route, n - 1)), id, desired, route, n - 1);
    }
  }

  lemma WaitAndReturn(s: State, id: nat, wait: nat)
    requires !s.stopping && id in s.calls && s.calls[id].todo == []
    ensures var c, s' := s.calls[id], Step(Step(s, Tick(wait)), Return(id));
            if s.clock + wait >= c.allowed
            then s'.delivered == s.delivered + [Delivery(id, c.bytes, s.clock + wait, c.held.Keys)] && id !in s'.calls
            else s'.delivered == s.delivered && id in s'.calls
  {
  }

  /** What `Reserves` says of a call that has been through all its buckets. */
  lemma ReservedAll(s: State, id: nat, desired: nat, route: seq<nat>, s1: State)
    requires !s.stopping && desired > 0 && id !in s.calls && IsRoute(s, route) && route != []
    requires s1 == Run(s, Reserving(id, desired, route, |route|))
    ensures s1.clock == s.clock && s1.delivered == s.delivered && !s1.stopping && id in s1.calls
    ensures var c := s1.calls[id];
            && c.todo == [] && c.held.Keys == KeysOf(route)
            && c.bytes == Min(desired, s.quantum) && c.allowed == LatestAllowed(s, route, |route|)
  {
    Reserves(s, id, desired, route, |route|);
    assert route[..|route|] == route && route[|route|..] == [];
  }

  /** A call that nobody disturbs gets its bytes, up to a quantum, through all its buckets, exactly from the
      latest moment on that one of them asks for, and not before. */
  lemma UndisturbedCall(s: State, id: nat, desired: nat, route: seq<nat>, wait: nat, s': State)
    requires !s.stopping && desired > 0 && id !in s.calls && IsRoute(s, route) && route != []
    requires s' == Run(s, Reserving(id, desired, route, |route|) + [Tick(wait), Return(id)])
    ensures if s.clock + wait >= LatestAllowed(s, route, |route|)
            then s'.delivered == s.delivered + [Delivery(id, Min(desired, s.quantum), s.clock + wait, KeysOf(route))] && id !in s'.calls
            else s'.delivered == s.delivered && id in s'.calls
  {
    var s1 := Run(s, Reserving(id, desired, route, |route|));
    ReservedAll(s, id, desired, route, s1);
    RunTwo(s, Reserving(id, desired, route, |route|), Tick(wait), Return(id));
    WaitAndReturn(s1, id, wait);
  }

  /** On buckets that are not in use, that is at once. */
  lemma {:induction false} IdleIsImmediate(s: State, route: seq<nat>, n: nat)
    requires n <= |route| && IsRoute(s, route) && 0 <= s.clock
    requires forall k :: 0 <= k < |route| ==> s.cells[route[k]].arrival <= s.clock
    ensures LatestAllowed(s, route, n) == s.clock
  {
    if n > 0 {
      IdleIsImmediate(s, route, n - 1);
    }
  }

  // ---------------------------------------------------------------- configuration

  function Ticks(events: seq<Event>): (ns: nat)
    decreases |events|
  {
    if events == [] then 0
    else
      var before := Ticks(events[..|events| - 1]);
      match events[|events| - 1]
      case Tick(ns) => before + ns
      case _ => before
  }

  /** The bucket that a run configures under a number: the first attachment with a usable rate counts. */
  function Configured(s: State, events: seq<Event>, b: nat): (r: Option<Bucket>)
    decreases |events|
  {
    if events == [] then if b in s.cells then Some(s.cells[b].bucket) else None
    else
      var front, e := events[..|events| - 1], events[|events| - 1];
      var before := Configured(s, front, b);
      if before.Some? then before
      else if e.Attach? && e.id == b && 0 < e.rate <= U64 / 2
      then Some(ConfigureBucket(e.rate, s.quantum, s.clock + Ticks(front)))
      else None
  }

  /** A bucket keeps the rate and burst it was configured with, and starts at that moment. */
  lemma {:induction false} BucketsAreConfigured(s: State, events: seq<Event>, b: nat)
    ensures var s' := Run(s, events);
            && s'.clock == s.clock + Ticks(events) && s'.quantum == s.quantum
            && (b in s'.cells <==> Configured(s, events, b).Some?)
            && (b in s'.cells ==> Configured(s, events, b) == Some(s'.cells[b].bucket))
    decreases |events|
  {
    if events != [] {
      var front, e := events[..|events| - 1], events[|events| - 1];
      BucketsAreConfigured(s, front, b);
      BucketStays(Run(s, front), e, b);
    }
  }

  lemma BucketStays(s: State, e: Event, b: nat)
    ensures var s' := Step(s, e);
            && s'.clock == (if e.Tick? then s.clock + e.nanoseconds else s.clock) && s'.quantum == s.quantum
            && (b in s.cells ==> b in s'.cells && s'.cells[b].bucket == s.cells[b].bucket)
            && (b !in s.cells && e.Attach? && e.id == b && 0 < e.rate <= U64 / 2 ==>
                  b in s'.cells && s'.cells[b].bucket == ConfigureBucket(e.rate, s.quantum, s.clock))
            && (b !in s.cells && !(e.Attach? && e.id == b && 0 < e.rate <= U64 / 2) ==> b !in s'.cells)
  {
    match e
    case Tick(_) =>
    case Attach(_, _) =>
    case Acquire(_, _, _) =>
    case Load(_) =>
    case Swap(_, _) =>
    case Return(_) =>
    case Stop =>
  }
}
