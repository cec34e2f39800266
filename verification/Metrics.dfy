/** Transfer metrics (src/transfer_metrics.cpp): counters that add by compare-and-swap and stick at the
    top, and the ten-slot ring of per-second byte counts behind the recent throughput. */
module Metrics {
  import opened Numerals
  import opened Sums

  const WINDOW: nat := 10

  /** The value a swap of `saturatingAdd` writes. */
  function SaturatingNext(current: nat, amount: nat): (next: nat)
    requires current <= MAX_U64
    ensures next == Saturate(current + amount)
  {
    if amount > MAX_U64 - current then MAX_U64 else current + amount
  }

  // ---------------------------------------------------------------- concurrent addition

  /** An atomic counter, the value each running `saturatingAdd` has last read beside its amount, and, as
      history, the exact sum of the additions that have finished. */
  datatype Counter = Counter(value: nat, adding: map<nat, (nat, nat)>, exact: nat)

  datatype Event = Begin(thread: nat, amount: nat) | Swap(thread: nat, spurious: bool)

  function Step(c: Counter, e: Event): (c': Counter) {
    match e
    case Begin(thread, amount) =>
      if thread in c.adding then c else c.(adding := c.adding[thread := (c.value, amount)])
    case Swap(thread, spurious) =>
      if thread !in c.adding then c
      else
        var read, amount := c.adding[thread].0, c.adding[thread].1;
        if spurious || c.value != read then c.(adding := c.adding[thread := (c.value, amount)])
        else Counter(Saturate(read + amount), c.adding - {thread}, c.exact + amount)
  }

  function Run(c: Counter, events: seq<Event>): (c': Counter)
    decreases |events|
  {
    if events == [] then c else Step(Run(c, events[..|events| - 1]), events[|events| - 1])
  }

  lemma StepIsExact(c: Counter, e: Event)
    requires c.value == Saturate(c.exact)
    ensures Step(c, e).value == Saturate(Step(c, e).exact)
  {
    match e
    case Begin(thread, amount) =>
    case Swap(thread, spurious) =>
  }

  /** However the compare-and-swaps of any number of threads interleave, the counter is the exact sum of
      the finished additions, stuck at 2^64 - 1. */
  lemma {:induction false} AdditionsAreExact(c: Counter, events: seq<Event>)
    requires c.value == Saturate(c.exact)
    ensures Run(c, events).value == Saturate(Run(c, events).exact)
    decreases |events|
  {
    if events != [] {
      AdditionsAreExact(c, events[..|events| - 1]);
      StepIsExact(Run(c, events[..|events| - 1]), events[|events| - 1]);
    }
  }

  /** The amounts that running additions still have to add. */
  ghost function Amounts(adding: map<nat, (nat, nat)>): (w: map<nat, nat>)
    ensures w.Keys == adding.Keys
  {
    map t | t in adding :: adding[t].1
  }

  ghost function Pending(adding: map<nat, (nat, nat)>): (sum: nat) { Sum(Amounts(adding), adding.Keys) }

  /** The amounts of all additions begun in a run. */
  function Begun(c: Counter, events: seq<Event>): (sum: nat)
    decreases |events|
  {
    if events == [] then 0
    else
      var front, e := events[..|events| - 1], events[|events| - 1];
      Begun(c, front) + (if e.Begin? && e.thread !in Run(c, front).adding then e.amount else 0)
  }

  lemma PendingWithout(adding: map<nat, (nat, nat)>, t: nat)
    requires t in adding
    ensures Pending(adding) == Pending(adding - {t}) + adding[t].1
  {
    var rest := adding - {t};
    assert rest.Keys == adding.Keys - {t};
    SumTake(Amounts(adding), adding.Keys, t);
    SumAgree(Amounts(adding), Amounts(rest), rest.Keys);
  }

  lemma PendingWith(adding: map<nat, (nat, nat)>, t: nat, read: nat, amount: nat)
    ensures Pending(adding[t := (read, amount)]) == Pending(adding - {t}) + amount
  {
    var more := adding[t := (read, amount)];
    assert more - {t} == adding - {t};
    PendingWithout(more, t);
  }

  lemma StepConserves(c: Counter, e: Event)
    ensures var c' := Step(c, e);
            c'.exact + Pending(c'.adding) ==
            c.exact + Pending(c.adding) + if e.Begin? && e.thread !in c.adding then e.amount else 0
  {
    match e
    case Begin(thread, amount) =>
      if thread !in c.adding {
        PendingWith(c.adding, thread, c.value, amount);
        assert c.adding - {thread} == c.adding;
      }
    case Swap(thread, spurious) =>
      if thread in c.adding {
        PendingWithout(c.adding, thread);
        PendingWith(c.adding, thread, c.value, c.adding[thread].1);
      }
  }

  /** No addition is lost, however the swaps interleave: what has been added and what is still to be added
      is what the counter started with and every amount begun since. */
  lemma {:induction false} AdditionsAreConserved(c: Counter, events: seq<Event>)
    ensures Run(c, events).exact + Pending(Run(c, events).adding) == c.exact + Pending(c.adding) + Begun(c, events)
    decreases |events|
  {
    if events != [] {
      AdditionsAreConserved(c, events[..|events| - 1]);
      StepConserves(Run(c, events[..|events| - 1]), events[|events| - 1]);
    }
  }

  /** Once nobody is adding any more, the counter is what it started with and all amounts begun since, stuck at
      2^64 - 1. */
  lemma FinishedCounter(value: nat, events: seq<Event>)
    requires value <= MAX_U64 && Run(Counter(value, map[], value), events).adding == map[]
    ensures Run(Counter(value, map[], value), events).value == Saturate(value + Begun(Counter(value, map[], value), events))
  {
    var c := Counter(value, map[], value);
    AdditionsAreConserved(c, events);
    AdditionsAreExact(c, events);
    NothingPending();
  }

  lemma NothingPending()
    ensures Pending(map[]) == 0
  {
  }

  /** A swap that fails is tried again: two attempts with nobody in between finish an addition. */
  lemma SecondTryFinishes(c: Counter, thread: nat)
    requires thread in c.adding
    ensures Step(Step(c, Swap(thread, false)), Swap(thread, false)).adding == c.adding - {thread}
  {
    var c1 := Step(c, Swap(thread, false));
    if thread in c1.adding {
      assert c1.adding - {thread} == c.adding - {thread};
    } else {
      assert c1.adding == c.adding - {thread};
    }
  }

  // ---------------------------------------------------------------- the ring

  /** One second's bytes, as an unbounded log would keep them. */
  datatype Supply = Supply(second: int, bytes: nat)

  datatype Slot = Slot(second: int, bytes: nat)

  /** All bytes logged in one second. */
  function InSecond(log: seq<Supply>, second: int): (sum: nat) {
    if log == [] then 0
    else InSecond(log[..|log| - 1], second) + BytesIf(log[|log| - 1], log[|log| - 1].second == second)
  }

  function BytesIf(s: Supply, counted: bool): (bytes: nat) {
    if counted then s.bytes else 0
  }

  predicate InWindow(second: int, now: int) {
    now - WINDOW < second <= now
  }

  /** All bytes logged in the ten seconds that end with `now`. */
  function InLastTen(log: seq<Supply>, now: int): (sum: nat) {
    if log == [] then 0
    else InLastTen(log[..|log| - 1], now) + BytesIf(log[|log| - 1], InWindow(log[|log| - 1].second, now))
  }

  /** The part of that in the first `k` slots of the ring. */
  function InSlots(log: seq<Supply>, now: int, k: nat): (sum: nat) {
    if log == [] then 0
    else
      var last := log[|log| - 1];
      InSlots(log[..|log| - 1], now, k) + BytesIf(last, InWindow(last.second, now) && last.second % WINDOW < k)
  }

  lemma {:induction false} AllSlots(log: seq<Supply>, now: int)
    ensures InSlots(log, now, WINDOW) == InLastTen(log, now) && InSlots(log, now, 0) == 0
    decreases |log|
  {
    if log != [] {
      AllSlots(log[..|log| - 1], now);
    }
  }

  /** A slot adds the bytes of the one second of the window that falls into it. */
  lemma {:induction false} NextSlot(log: seq<Supply>, now: int, k: nat, second: int)
    requires k < WINDOW && second % WINDOW == k && InWindow(second, now)
    ensures InSlots(log, now, k + 1) == InSlots(log, now, k) + InSecond(log, second)
    decreases |log|
  {
    if log != [] {
      NextSlot(log[..|log| - 1], now, k, second);
      SameSlot(log[|log| - 1].second, second, now);
    }
  }

  lemma SameSlot(a: int, b: int, now: int)
    requires InWindow(b, now)
    ensures InWindow(a, now) && a % WINDOW == b % WINDOW <==> a == b
  {
  }

  /** No second in the window falls into the slot when nothing logged there is recent. */
  lemma {:induction false} EmptySlot(log: seq<Supply>, now: int, k: nat)
    requires k < WINDOW
    requires forall i :: 0 <= i < |log| && log[i].second % WINDOW == k ==> !InWindow(log[i].second, now)
    ensures InSlots(log, now, k + 1) == InSlots(log, now, k)
    decreases |log|
  {
    if log != [] {
      assert log[|log| - 1].second % WINDOW == k ==> !InWindow(log[|log| - 1].second, now);
      EmptySlot(log[..|log| - 1], now, k);
    }
  }

  lemma InSecondSnoc(log: seq<Supply>, s: Supply, second: int)
    ensures InSecond(log + [s], second) == InSecond(log, second) + BytesIf(s, s.second == second)
  {
    assert (log + [s])[..|log|] == log;
  }

  lemma {:induction false} NothingYet(log: seq<Supply>, second: int)
    requires forall i :: 0 <= i < |log| ==> log[i].second != second
    ensures InSecond(log, second) == 0
    decreases |log|
  {
    if log != [] {
      NothingYet(log[..|log| - 1], second);
    }
  }

  lemma SaturateTwice(a: nat, b: nat)
    ensures Saturate(Saturate(a) + Saturate(b)) == Saturate(a + b)
  {
  }

  /** A slot holds the latest second logged in it, with the exact sum of that second, stuck at the top. */
  ghost predicate SlotOk(log: seq<Supply>, slot: Slot, k: int) {
    && (slot.second == -1 || (slot.second >= 0 && slot.second % WINDOW == k))
    && slot.bytes == Saturate(InSecond(log, slot.second))
    && (forall i :: 0 <= i < |log| && log[i].second % WINDOW == k ==> log[i].second <= slot.second)
  }

  ghost predicate RingOk(log: seq<Supply>, ring: seq<Slot>, clock: int) {
    && |ring| == WINDOW
    && (forall i :: 0 <= i < |log| ==> 0 <= log[i].second <= clock)
    && (forall k :: 0 <= k < WINDOW ==> SlotOk(log, ring[k], k) && ring[k].second <= clock)
  }

  /** Bytes of a second go into its slot, over whatever older second the slot held. */
  lemma RingGrows(log: seq<Supply>, ring: seq<Slot>, clock: int, second: int, bytes: nat)
    requires RingOk(log, ring, clock) && 0 <= clock <= second
    ensures var k := second % WINDOW;
            var base := if ring[k].second == second then ring[k].bytes else 0;
            base <= MAX_U64 && RingOk(log + [Supply(second, bytes)], ring[k := Slot(second, Saturate(base + bytes))], second)
  {
    var k := second % WINDOW;
    var log' := log + [Supply(second, bytes)];
    assert SlotOk(log, ring[k], k);
    SlotGrows(log, ring[k], second, bytes, k);
    forall j | 0 <= j < WINDOW && j != k ensures SlotOk(log', ring[j], j) {
      assert SlotOk(log, ring[j], j);
      InSecondSnoc(log, Supply(second, bytes), ring[j].second);
    }
  }

  lemma RingLater(log: seq<Supply>, ring: seq<Slot>, clock: int, later: int)
    requires RingOk(log, ring, clock) && clock <= later
    ensures RingOk(log, ring, later)
  {
  }

  class TransferMetrics {
    const slots: array<Slot>
    var transferred: nat
    ghost var log: seq<Supply>
    ghost var clock: int

    ghost predicate RingValid()
      reads this, slots
    {
      slots.Length == WINDOW && clock >= 0 && RingOk(log, slots[..], clock)
    }

    ghost predicate Valid()
      reads this, slots
    {
      RingValid() && transferred == Saturate(Total(log))
    }

    constructor ()
      ensures Valid() && log == [] && clock == 0 && fresh(slots)
    {
      slots := new Slot[10](_ => Slot(-1, 0));
      transferred, log, clock := 0, [], 0;
      new;
      assert forall k :: 0 <= k < WINDOW ==> slots[..][k] == Slot(-1, 0);
    }

    /** Lines 52-60: reset the slot if it holds another second, then add. The slot is chosen by the
        second truncated to 32 bits, the width of `size_t` on the target. */
    method AddToSlot(bytes: nat, second: int)
      requires slots.Length == WINDOW && 0 <= second < 0x1_0000_0000
      requires slots[second % WINDOW].second == second ==> slots[second % WINDOW].bytes <= MAX_U64
      modifies slots
      ensures var k := second % WINDOW;
              var base := if old(slots[k].second) == second then old(slots[k].bytes) else 0;
              slots[..] == old(slots[..])[k := Slot(second, Saturate(base + bytes))]
    {
      var k := second % 0x1_0000_0000 % WINDOW;
      if slots[k].second != second {
        slots[k] := Slot(second, 0);
      }
      slots[k] := Slot(second, SaturatingNext(slots[k].bytes, bytes));
    }

    /** `bytesSupplied` at a given second, calls being serialized and the clock not running backwards. */
    method BytesSupplied(bytes: nat, second: int)
      requires Valid() && clock <= second < 0x1_0000_0000 && bytes <= MAX_U64
      modifies this`transferred, this`log, this`clock, slots
      ensures Valid() && clock == second
      ensures log == if bytes == 0 then old(log) else old(log) + [Supply(second, bytes)]
    {
      if bytes == 0 {
        RingLater(log, slots[..], clock, second);
        clock := second;
        return;
      }
      TotalGrows(log, Supply(second, bytes));
      transferred := SaturatingNext(transferred, bytes);
      RecordBytes(bytes, second);
    }

    /** The ring's part of it (lines 51-60), after the total has been increased. */
    method RecordBytes(bytes: nat, second: int)
      requires RingValid() && clock <= second < 0x1_0000_0000 && bytes <= MAX_U64
      modifies this`log, this`clock, slots
      ensures RingValid() && clock == second && log == old(log) + [Supply(second, bytes)]
    {
      RingGrows(log, slots[..], clock, second, bytes);
      AddToSlot(bytes, second);
      log, clock := log + [Supply(second, bytes)], second;
    }

    /** The bytes of the last ten seconds, as `snapshot` adds them up: exactly what the unbounded log
        says, stuck at 2^64 - 1. */
    method RecentBytes(now: int) returns (recent: nat)
      requires Valid() && clock <= now
      ensures recent == Saturate(InLastTen(log, now))
    {
      recent := 0;
      AllSlots(log, now);
      var k := 0;
      while k < WINDOW
        invariant 0 <= k <= WINDOW && recent == Saturate(InSlots(log, now, k))
      {
        var slot := slots[k];
        assert slots[..][k] == slot;
        SlotInWindow(log, slot, k, now);
        if slot.second <= now && slot.second > now - WINDOW {
          SaturateTwice(InSlots(log, now, k), InSecond(log, slot.second));
          recent := SaturatingNext(recent, slot.bytes);
        }
        k := k + 1;
      }
    }
  }

  /** Every byte ever logged. */
  function Total(log: seq<Supply>): (sum: nat) {
    if log == [] then 0 else Total(log[..|log| - 1]) + log[|log| - 1].bytes
  }

  lemma TotalGrows(log: seq<Supply>, s: Supply)
    ensures Saturate(Total(log + [s])) == Saturate(Saturate(Total(log)) + s.bytes)
  {
    assert (log + [s])[..|log|] == log;
  }

  lemma SlotGrows(log: seq<Supply>, slot: Slot, second: int, bytes: nat, k: int)
    requires 0 <= second && k == second % WINDOW && SlotOk(log, slot, k) && slot.second <= second
    ensures var base := if slot.second == second then slot.bytes else 0;
            base <= MAX_U64 && SlotOk(log + [Supply(second, bytes)], Slot(second, Saturate(base + bytes)), k)
  {
    InSecondSnoc(log, Supply(second, bytes), second);
    if slot.second != second {
      NothingYet(log, second);
    } else {
      SaturateTwice(InSecond(log, second), bytes);
    }
  }

  lemma SlotInWindow(log: seq<Supply>, slot: Slot, k: int, now: int)
    requires 0 <= k < WINDOW && SlotOk(log, slot, k) && slot.second <= now && now >= 0
    requires forall i :: 0 <= i < |log| ==> 0 <= log[i].second
    ensures slot.bytes <= MAX_U64
    ensures InSlots(log, now, k + 1) == InSlots(log, now, k) + if InWindow(slot.second, now) then InSecond(log, slot.second) else 0
  {
    if InWindow(slot.second, now) && slot.second >= 0 {
      NextSlot(log, now, k, slot.second);
    } else {
      if slot.second == -1 {
        NothingYet(log, -1);
      }
      forall i | 0 <= i < |log| && log[i].second % WINDOW == k ensures !InWindow(log[i].second, now) {
      }
      EmptySlot(log, now, k);
    }
  }
}
