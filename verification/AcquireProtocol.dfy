/** `acquire` of the bandwidth limiter (src/bandwidth_limiter.cpp) run by any number of threads: each
    call reserves the global bucket and then its client's by compare-and-swap loops, waits for the later
    of the two times, and is let through or cancelled. Loads, swap attempts, clock ticks and stopping
    interleave freely; `Step` is total, so a run is any sequence of events. */
module AcquireProtocol {
  import opened Basics
  import opened Numerals
  import opened Bandwidth

  /** A bucket in memory: its atomic arrival time and, as history, its reservations. */
  datatype Cell = Cell(bucket: Bucket, arrival: int, log: seq<Reservation>)

  datatype Loaded = NotLoaded | Loaded(arrival: int)

  /** A call of `acquire`: the buckets it still has to reserve, the log position it holds in each bucket
      it has reserved, and the time it must wait for. */
  datatype Call = Call(bytes: nat, now: int, todo: seq<nat>, held: map<nat, nat>, allowed: int, loaded: Loaded)

  /** Bytes handed to a transfer by a call, when, and through which buckets. */
  datatype Delivery = Delivery(call: nat, bytes: nat, at: int, through: set<nat>)

  datatype State = State(quantum: nat, cells: map<nat, Cell>, calls: map<nat, Call>,
                         clock: int, stopping: bool, delivered: seq<Delivery>)

  datatype Event =
    | Tick(nanoseconds: nat)
    | Attach(id: nat, rate: nat)
    | Acquire(call: nat, desired: nat, route: seq<nat>)
    | Load(call: nat)
    | Swap(call: nat, spurious: bool)
    | Return(call: nat)
    | Stop

  /** The limited buckets of one call: existing, distinct, global before client. */
  predicate IsRoute(s: State, route: seq<nat>) {
    && (forall i :: 0 <= i < |route| ==> route[i] in s.cells)
    && (forall i, j :: 0 <= i < j < |route| ==> route[i] != route[j])
  }

  function SwapCell(cell: Cell, c: Call, id: nat, previous: int): (r: Cell) {
    var duration := DurationFor(c.bytes, cell.bucket.rate);
    cell.(arrival := NextArrival(cell.bucket, previous, c.now, duration),
          log := cell.log + [Reservation(c.bytes, duration, c.now, id, NotYet)])
  }

  function SwapCall(cell: Cell, c: Call, previous: int): (r: Call)
    requires c.todo != []
  {
    c.(todo := c.todo[1..], held := c.held[c.todo[0] := |cell.log|],
       allowed := Max(c.allowed, Allowed(cell.bucket, previous, c.now)), loaded := NotLoaded)
  }

  /** The reservation at a log position is marked as let through. */
  function MarkCell(cell: Cell, i: nat, time: int): (r: Cell) {
    if i < |cell.log| then cell.(log := cell.log[i := cell.log[i].(granted := At(time))]) else cell
  }

  function MarkCells(cells: map<nat, Cell>, held: map<nat, nat>, time: int): (r: map<nat, Cell>) {
    map b | b in cells :: if b in held then MarkCell(cells[b], held[b], time) else cells[b]
  }

  function Step(s: State, e: Event): (s': State) {
    match e
    case Tick(ns) => s.(clock := s.clock + ns)
    case Attach(id, rate) =>
      if id in s.cells || rate == 0 || rate > U64 / 2 then s
      else s.(cells := s.cells[id := Cell(ConfigureBucket(rate, s.quantum, s.clock), s.clock, [])])
    case Acquire(id, desired, route) =>
      if s.stopping || desired == 0 || id in s.calls || !IsRoute(s, route) then s
      else if route == [] then s.(delivered := s.delivered + [Delivery(id, desired, s.clock, {})])
      else s.(calls := s.calls[id := Call(Min(desired, s.quantum), s.clock, route, map[], s.clock, NotLoaded)])
    case Load(id) =>
      if id !in s.calls || s.calls[id].todo == [] || s.calls[id].todo[0] !in s.cells then s
      else s.(calls := s.calls[id := s.calls[id].(loaded := Loaded(s.cells[s.calls[id].todo[0]].arrival))])
    case Swap(id, spurious) =>
      if id !in s.calls || s.calls[id].todo == [] || s.calls[id].todo[0] !in s.cells || !s.calls[id].loaded.Loaded? then s
      else
        var c := s.calls[id];
        var b := c.todo[0];
        var cell := s.cells[b];
        if spurious || cell.arrival != c.loaded.arrival then
          s.(calls := s.calls[id := c.(loaded := Loaded(cell.arrival))])
        else
          s.(cells := s.cells[b := SwapCell(cell, c, id, c.loaded.arrival)],
             calls := s.calls[id := SwapCall(cell, c, c.loaded.arrival)])
    case Return(id) =>
      if id !in s.calls || s.calls[id].todo != [] then s
      else if s.stopping then s.(calls := s.calls - {id})
      else if s.clock < s.calls[id].allowed then s
      else
        var c := s.calls[id];
        s.(cells := MarkCells(s.cells, c.held, s.clock), calls := s.calls - {id},
           delivered := s.delivered + [Delivery(id, c.bytes, s.clock, c.held.Keys)])
    case Stop => s.(stopping := true)
  }

  function Run(s: State, events: seq<Event>): (s': State)
    decreases |events|
  {
    if events == [] then s else Step(Run(s, events[..|events| - 1]), events[|events| - 1])
  }

  function Through(d: Delivery, b: nat, t: int): (bytes: nat) {
    if b in d.through && d.at <= t then d.bytes else 0
  }

  /** Bytes delivered through bucket `b` by time `t`. */
  function DeliveredBy(ds: seq<Delivery>, b: nat, t: int): (bytes: nat) {
    if ds == [] then 0 else DeliveredBy(ds[..|ds| - 1], b, t) + Through(ds[|ds| - 1], b, t)
  }

  // ---------------------------------------------------------------- invariant

  ghost predicate CellOk(cell: Cell, quantum: nat) {
    && cell.arrival == Arrival(cell.bucket, cell.log, |cell.log|)
    && Priced(cell.bucket, cell.log, quantum)
    && GrantsAreDue(cell.bucket, cell.log)
    && ReadAfterStart(cell)
  }

  /** No reservation read the clock before the bucket was configured. */
  predicate ReadAfterStart(cell: Cell) {
    0 <= cell.bucket.start && forall i :: 0 <= i < |cell.log| ==> cell.bucket.start <= cell.log[i].now
  }

  /** A call's entry in a log is its own, not yet let through, and due no later than the call waits. */
  predicate HoldsEntry(cell: Cell, i: nat, id: nat, c: Call) {
    && i < |cell.log|
    && cell.log[i].owner == id && cell.log[i].bytes == c.bytes && cell.log[i].granted == NotYet
    && AllowedAt(cell.bucket, cell.log, i) <= c.allowed
  }

  ghost predicate CallOk(s: State, id: nat, c: Call) {
    && c.bytes <= s.quantum
    && IsRoute(s, c.todo)
    && (forall i :: 0 <= i < |c.todo| ==> c.todo[i] !in c.held && s.cells[c.todo[i]].bucket.start <= c.now)
    && (forall b :: b in c.held ==> b in s.cells && HoldsEntry(s.cells[b], c.held[b], id, c))
  }

  /** The log of a bucket accounts for exactly the bytes delivered through it. */
  ghost predicate Accounted(s: State, b: nat)
    requires b in s.cells
  {
    forall t :: DeliveredBy(s.delivered, b, t) == BytesGranted(s.cells[b].log, |s.cells[b].log|, t)
  }

  ghost predicate Inv(s: State) {
    && 0 <= s.clock
    && (forall b :: b in s.cells ==> CellOk(s.cells[b], s.quantum) && Accounted(s, b) && s.cells[b].bucket.start <= s.clock)
    && (forall id :: id in s.calls ==> CallOk(s, id, s.calls[id]))
    && (forall i :: 0 <= i < |s.delivered| ==> s.delivered[i].through <= s.cells.Keys)
  }

  // ---------------------------------------------------------------- logs under change

  /** Arrival times depend only on the clock readings and durations before them. */
  lemma {:induction false} ArrivalAgrees(b: Bucket, log: seq<Reservation>, other: seq<Reservation>, n: nat)
    requires n <= |log| && n <= |other|
    requires forall i :: 0 <= i < n ==> log[i].now == other[i].now && log[i].duration == other[i].duration
    ensures Arrival(b, log, n) == Arrival(b, other, n)
  {
    if n > 0 {
      ArrivalAgrees(b, log, other, n - 1);
    }
  }

  lemma {:induction false} GrantedAgrees(log: seq<Reservation>, other: seq<Reservation>, n: nat, t: int)
    requires n <= |log| && n <= |other|
    requires forall i :: 0 <= i < n ==> log[i].bytes == other[i].bytes && log[i].granted == other[i].granted
    ensures BytesGranted(log, n, t) == BytesGranted(other, n, t)
  {
    if n > 0 {
      GrantedAgrees(log, other, n - 1, t);
    }
  }

  /** Marking one entry adds its bytes to what is granted from that time on, and nothing else. */
  lemma {:induction false} GrantedMarked(log: seq<Reservation>, i: nat, time: int, n: nat, t: int)
    requires i < n <= |log| && log[i].granted == NotYet
    ensures var marked := log[i := log[i].(granted := At(time))];
            BytesGranted(marked, n, t) == BytesGranted(log, n, t) + if time <= t then log[i].bytes else 0
  {
    var marked := log[i := log[i].(granted := At(time))];
    if i == n - 1 {
      GrantedAgrees(marked, log, i, t);
    } else {
      GrantedMarked(log, i, time, n - 1, t);
    }
  }

  /** A successful swap appends a priced entry, due when it says, that nobody has been let through. */
  lemma SwapKeepsCell(cell: Cell, c: Call, id: nat, quantum: nat)
    requires CellOk(cell, quantum) && c.bytes <= quantum && cell.bucket.start <= c.now
    ensures var r := SwapCell(cell, c, id, cell.arrival);
            && CellOk(r, quantum)
            && (forall i :: 0 <= i < |cell.log| ==> AllowedAt(r.bucket, r.log, i) == AllowedAt(cell.bucket, cell.log, i))
            && AllowedAt(r.bucket, r.log, |cell.log|) == Allowed(cell.bucket, cell.arrival, c.now)
  {
    var r := SwapCell(cell, c, id, cell.arrival);
    forall i | 0 <= i <= |cell.log| ensures Arrival(r.bucket, r.log, i) == Arrival(cell.bucket, cell.log, i) {
      ArrivalAgrees(r.bucket, r.log, cell.log, i);
    }
  }

  lemma SwapKeepsGranted(cell: Cell, c: Call, id: nat, t: int)
    ensures var r := SwapCell(cell, c, id, cell.arrival);
            BytesGranted(r.log, |r.log|, t) == BytesGranted(cell.log, |cell.log|, t)
  {
    var r := SwapCell(cell, c, id, cell.arrival);
    GrantedAgrees(r.log, cell.log, |cell.log|, t);
  }

  lemma MarkKeepsCell(cell: Cell, i: nat, time: int, quantum: nat)
    requires CellOk(cell, quantum) && i < |cell.log| && AllowedAt(cell.bucket, cell.log, i) <= time
    ensures var r := MarkCell(cell, i, time);
            && CellOk(r, quantum)
            && (forall k :: 0 <= k < |cell.log| ==> AllowedAt(r.bucket, r.log, k) == AllowedAt(cell.bucket, cell.log, k))
  {
    var r := MarkCell(cell, i, time);
    forall k | 0 <= k <= |cell.log| ensures Arrival(r.bucket, r.log, k) == Arrival(cell.bucket, cell.log, k) {
      ArrivalAgrees(r.bucket, r.log, cell.log, k);
    }
  }

  lemma DeliveredSnoc(ds: seq<Delivery>, d: Delivery, b: nat, t: int)
    ensures DeliveredBy(ds + [d], b, t) == DeliveredBy(ds, b, t) + Through(d, b, t)
  {
    assert (ds + [d])[..|ds|] == ds;
  }

  lemma {:induction false} DeliveredNothing(ds: seq<Delivery>, b: nat, t: int)
    requires forall i :: 0 <= i < |ds| ==> b !in ds[i].through
    ensures DeliveredBy(ds, b, t) == 0
    decreases |ds|
  {
    if ds != [] {
      DeliveredNothing(ds[..|ds| - 1], b, t);
    }
  }

  // ---------------------------------------------------------------- steps

  lemma AttachKeeps(s: State, id: nat, rate: nat)
    requires Inv(s)
    ensures Inv(Step(s, Attach(id, rate)))
  {
    var s' := Step(s, Attach(id, rate));
    if s' != s {
      forall t ensures DeliveredBy(s'.delivered, id, t) == 0 {
        DeliveredNothing(s.delivered, id, t);
      }
      forall c | c in s'.calls ensures CallOk(s', c, s'.calls[c]) {
        assert CallOk(s, c, s.calls[c]);
      }
      forall b | b in s'.cells ensures CellOk(s'.cells[b], s'.quantum) && Accounted(s', b) {
        assert b != id ==> s'.cells[b] == s.cells[b] && Accounted(s, b);
      }
    }
  }

  lemma AcquireKeeps(s: State, id: nat, desired: nat, route: seq<nat>)
    requires Inv(s)
    ensures Inv(Step(s, Acquire(id, desired, route)))
  {
    var s' := Step(s, Acquire(id, desired, route));
    if s' == s {
    } else if route == [] {
      forall b | b in s'.cells ensures Accounted(s', b) {
        assert Accounted(s, b);
        forall t ensures DeliveredBy(s'.delivered, b, t) == DeliveredBy(s.delivered, b, t) {
          DeliveredSnoc(s.delivered, Delivery(id, desired, s.clock, {}), b, t);
        }
      }
      forall c | c in s'.calls ensures CallOk(s', c, s'.calls[c]) {
        assert CallOk(s, c, s.calls[c]);
      }
    } else {
      forall b | b in s'.cells ensures Accounted(s', b) {
        assert Accounted(s, b);
      }
      forall c | c in s'.calls ensures CallOk(s', c, s'.calls[c]) {
        assert c != id ==> CallOk(s, c, s.calls[c]);
      }
    }
  }

  /** A load, or a swap that fails, only changes what the call has read. */
  lemma ReadKeeps(s: State, id: nat, loaded: Loaded)
    requires Inv(s) && id in s.calls
    ensures Inv(s.(calls := s.calls[id := s.calls[id].(loaded := loaded)]))
  {
    var s' := s.(calls := s.calls[id := s.calls[id].(loaded := loaded)]);
    forall b | b in s'.cells ensures Accounted(s', b) {
      assert Accounted(s, b);
    }
    forall c | c in s'.calls ensures CallOk(s', c, s'.calls[c]) {
      assert CallOk(s, c, s.calls[c]);
    }
  }

  lemma SwapKeeps(s: State, id: nat)
    requires Inv(s) && id in s.calls && s.calls[id].todo != []
    requires s.calls[id].todo[0] in s.cells
    ensures var c := s.calls[id];
            var b := c.todo[0];
            var cell := s.cells[b];
            Inv(s.(cells := s.cells[b := SwapCell(cell, c, id, cell.arrival)],
                   calls := s.calls[id := SwapCall(cell, c, cell.arrival)]))
  {
    var c := s.calls[id];
    var b := c.todo[0];
    var cell := s.cells[b];
    var s' := s.(cells := s.cells[b := SwapCell(cell, c, id, cell.arrival)],
                 calls := s.calls[id := SwapCall(cell, c, cell.arrival)]);
    assert CallOk(s, id, c);
    SwapKeepsCell(cell, c, id, s.quantum);
    forall k | k in s'.cells ensures CellOk(s'.cells[k], s'.quantum) && Accounted(s', k) {
      assert Accounted(s, k);
      forall t ensures BytesGranted(s'.cells[k].log, |s'.cells[k].log|, t) == DeliveredBy(s.delivered, k, t) {
        SwapKeepsGranted(cell, c, id, t);
      }
    }
    forall k | k in s'.calls ensures CallOk(s', k, s'.calls[k]) {
      assert CallOk(s, k, s.calls[k]);
      SwapKeepsCall(s, s', id, k);
    }
  }

  lemma SwapKeepsCall(s: State, s': State, id: nat, k: nat)
    requires id in s.calls && CallOk(s, id, s.calls[id]) && k in s.calls && CallOk(s, k, s.calls[k])
    requires s.calls[id].todo != [] && s.calls[id].todo[0] in s.cells
    requires var c := s.calls[id];
             var b := c.todo[0];
             var cell := s.cells[b];
             && s'.cells == s.cells[b := SwapCell(cell, c, id, cell.arrival)]
             && s'.calls == s.calls[id := SwapCall(cell, c, cell.arrival)]
             && s'.quantum == s.quantum
             && (forall i :: 0 <= i < |cell.log| ==>
                   AllowedAt(cell.bucket, s'.cells[b].log, i) == AllowedAt(cell.bucket, cell.log, i))
             && AllowedAt(cell.bucket, s'.cells[b].log, |cell.log|) == Allowed(cell.bucket, cell.arrival, c.now)
    ensures CallOk(s', k, s'.calls[k])
  {
    var old', new' := s.calls[k], s'.calls[k];
    assert CallOk(s, k, old');
    forall x | x in new'.held ensures x in s'.cells && HoldsEntry(s'.cells[x], new'.held[x], k, new') {
      if x in old'.held {
        assert HoldsEntry(s.cells[x], old'.held[x], k, old');
      }
    }
  }

  /** Letting a call through marks its own entries only: no other call owns them. */
  lemma ReturnKeeps(s: State, id: nat)
    requires Inv(s) && id in s.calls && s.calls[id].todo == [] && s.calls[id].allowed <= s.clock
    ensures var c := s.calls[id];
            Inv(s.(cells := MarkCells(s.cells, c.held, s.clock), calls := s.calls - {id},
                   delivered := s.delivered + [Delivery(id, c.bytes, s.clock, c.held.Keys)]))
  {
    var c := s.calls[id];
    var d := Delivery(id, c.bytes, s.clock, c.held.Keys);
    var s' := s.(cells := MarkCells(s.cells, c.held, s.clock), calls := s.calls - {id},
                 delivered := s.delivered + [d]);
    assert CallOk(s, id, c);
    forall b | b in s'.cells ensures CellOk(s'.cells[b], s'.quantum) && Accounted(s', b) {
      assert Accounted(s, b) && CellOk(s.cells[b], s.quantum);
      if b in c.held {
        assert HoldsEntry(s.cells[b], c.held[b], id, c);
        MarkKeepsCell(s.cells[b], c.held[b], s.clock, s.quantum);
      }
      forall t ensures DeliveredBy(s'.delivered, b, t) == BytesGranted(s'.cells[b].log, |s'.cells[b].log|, t) {
        DeliveredSnoc(s.delivered, d, b, t);
        if b in c.held {
          GrantedMarked(s.cells[b].log, c.held[b], s.clock, |s.cells[b].log|, t);
        }
      }
    }
    forall k | k in s'.calls ensures CallOk(s', k, s'.calls[k]) {
      MarkKeepsCall(s, s', id, k);
    }
  }

  lemma MarkKeepsCall(s: State, s': State, id: nat, k: nat)
    requires Inv(s) && id in s.calls && k in s.calls && k != id && s.calls[id].allowed <= s.clock
    requires s'.cells == MarkCells(s.cells, s.calls[id].held, s.clock) && s'.quantum == s.quantum
    ensures CallOk(s', k, s.calls[k])
  {
    var c, other := s.calls[id], s.calls[k];
    assert CallOk(s, id, c) && CallOk(s, k, other);
    forall x | x in other.held ensures x in s'.cells && HoldsEntry(s'.cells[x], other.held[x], k, other) {
      assert HoldsEntry(s.cells[x], other.held[x], k, other);
      if x in c.held {
        assert HoldsEntry(s.cells[x], c.held[x], id, c);
        MarkKeepsCell(s.cells[x], c.held[x], s.clock, s.quantum);
      }
    }
  }

  lemma CancelKeeps(s: State, id: nat)
    requires Inv(s)
    ensures Inv(s.(calls := s.calls - {id}))
  {
    var s' := s.(calls := s.calls - {id});
    forall b | b in s'.cells ensures Accounted(s', b) {
      assert Accounted(s, b);
    }
    forall k | k in s'.calls ensures CallOk(s', k, s'.calls[k]) {
      assert CallOk(s, k, s.calls[k]);
    }
  }

  lemma ClockKeeps(s: State, clock: int, stopping: bool)
    requires Inv(s) && s.clock <= clock
    ensures Inv(s.(clock := clock, stopping := stopping))
  {
    var s' := s.(clock := clock, stopping := stopping);
    forall b | b in s'.cells ensures Accounted(s', b) {
      assert Accounted(s, b);
    }
    forall k | k in s'.calls ensures CallOk(s', k, s'.calls[k]) {
      assert CallOk(s, k, s.calls[k]);
    }
  }

  lemma StepKeeps(s: State, e: Event)
    requires Inv(s)
    ensures Inv(Step(s, e)) && Step(s, e).quantum == s.quantum
  {
    match e
    case Tick(ns) => ClockKeeps(s, s.clock + ns, s.stopping);
    case Stop => ClockKeeps(s, s.clock, true);
    case Attach(id, rate) => AttachKeeps(s, id, rate);
    case Acquire(id, desired, route) => AcquireKeeps(s, id, desired, route);
    case Load(id) =>
      if id in s.calls && s.calls[id].todo != [] && s.calls[id].todo[0] in s.cells {
        ReadKeeps(s, id, Loaded(s.cells[s.calls[id].todo[0]].arrival));
      }
    case Swap(id, spurious) =>
      if id in s.calls && s.calls[id].todo != [] && s.calls[id].todo[0] in s.cells && s.calls[id].loaded.Loaded? {
        ReadKeeps(s, id, Loaded(s.cells[s.calls[id].todo[0]].arrival));
        SwapKeeps(s, id);
      }
    case Return(id) =>
      if id in s.calls && s.calls[id].todo == [] {
        CancelKeeps(s, id);
        if s.clock >= s.calls[id].allowed {
          ReturnKeeps(s, id);
        }
      }
  }

  /** A freshly configured limiter: buckets without reservations, no calls, nothing delivered. */
  ghost predicate Init(s: State) {
    && s.calls == map[] && s.delivered == []
    && (forall b :: b in s.cells ==> s.cells[b].log == [] && 0 <= s.cells[b].arrival == s.cells[b].bucket.start <= s.clock)
    && 0 <= s.clock
  }

  lemma {:induction false} RunKeeps(s: State, events: seq<Event>)
    requires Init(s)
    ensures Inv(Run(s, events)) && Run(s, events).quantum == s.quantum
    decreases |events|
  {
    if events != [] {
      RunKeeps(s, events[..|events| - 1]);
      StepKeeps(Run(s, events[..|events| - 1]), events[|events| - 1]);
    }
  }

  /** The rate limit of every bucket, global and per client at once, over every run: by any time since
      its configuration, the bytes that calls obtained through it are at most its rate times the elapsed
      time, the burst and one quantum. */
  lemma RateLimit(s: State, events: seq<Event>, s': State, b: nat, t: int)
    requires Init(s) && s' == Run(s, events) && s.quantum <= MAX_QUANTUM && b in s'.cells
    requires 0 < s'.cells[b].bucket.rate <= U64 / 2 && s'.cells[b].arrival < MAX_I64 && t >= s'.cells[b].bucket.start
    ensures var bucket := s'.cells[b].bucket;
            NANOS * DeliveredBy(s'.delivered, b, t) <=
            bucket.rate * (t - bucket.start + bucket.burst + DurationFor(s'.quantum, bucket.rate))
  {
    RunKeeps(s, events);
    InvRateLimit(s', b, t);
  }

  lemma InvRateLimit(s: State, b: nat, t: int)
    requires Inv(s) && s.quantum <= MAX_QUANTUM && b in s.cells
    requires 0 < s.cells[b].bucket.rate <= U64 / 2 && s.cells[b].arrival < MAX_I64 && t >= s.cells[b].bucket.start
    ensures var bucket := s.cells[b].bucket;
            NANOS * DeliveredBy(s.delivered, b, t) <=
            bucket.rate * (t - bucket.start + bucket.burst + DurationFor(s.quantum, bucket.rate))
  {
    var cell := s.cells[b];
    assert CellOk(cell, s.quantum) && Accounted(s, b);
    CumulativeRate(cell.bucket, cell.log, |cell.log|, s.quantum, t);
  }

  /** The window bound over every run: the bytes reserved on a bucket from reservation i to j-1 are at most
      its rate times the time between the moments i and j may pass, and the burst. */
  lemma WindowLimit(s: State, events: seq<Event>, s': State, b: nat, i: nat, j: nat)
    requires Init(s) && s' == Run(s, events) && s.quantum <= MAX_QUANTUM && b in s'.cells && i <= j < |s'.cells[b].log|
    requires 0 < s'.cells[b].bucket.rate <= U64 / 2 && s'.cells[b].arrival < MAX_I64
    ensures var cell := s'.cells[b];
            NANOS * BytesReserved(cell.log, i, j) <=
            cell.bucket.rate * (AllowedAt(cell.bucket, cell.log, j) - AllowedAt(cell.bucket, cell.log, i) + cell.bucket.burst)
  {
    RunKeeps(s, events);
    var cell := s'.cells[b];
    assert CellOk(cell, s'.quantum);
    ArrivalAdvances(cell.bucket, cell.log, j, |cell.log|);
    WindowBytes(cell.bucket, cell.log, s'.quantum, i, j);
  }

  /** The bounded wait over every run: a reservation is scheduled within one quantum's duration for each
      earlier reservation of its bucket still in the future at `t`, and one more, where `t` is the latest
      clock reading so far on that bucket (its own, if the readings came in order). */
  lemma WaitLimit(s: State, events: seq<Event>, s': State, b: nat, n: nat, t: int)
    requires Init(s) && s' == Run(s, events) && s.quantum <= MAX_QUANTUM && b in s'.cells && n < |s'.cells[b].log|
    requires 0 < s'.cells[b].bucket.rate <= U64 / 2
    requires forall k :: 0 <= k <= n ==> s'.cells[b].log[k].now <= t
    ensures var cell := s'.cells[b];
            AllowedAt(cell.bucket, cell.log, n) <=
            t + (StillFuture(cell.bucket, cell.log, n, t) + 1) * DurationFor(s'.quantum, cell.bucket.rate)
  {
    RunKeeps(s, events);
    var cell := s'.cells[b];
    assert CellOk(cell, s'.quantum);
    QuantumIsLongest(cell.bucket, cell.log, s'.quantum);
    BoundedWait(cell.bucket, cell.log, n, t, DurationFor(s'.quantum, cell.bucket.rate));
  }
}
