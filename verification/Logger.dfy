/** The asynchronous logger (src/logger.cpp): any thread offers lines under a mutex, one worker swaps the
    queue for an empty one and writes it out, and lines that find the queue full, or whose file does not
    open, are counted instead. A run is any interleaving of the lock-held regions, the opening of the file
    (which may fail at any time) and the writing of single lines. */
module Logger {
  const MAX_QUEUED := 4096

  /** A line of text, tagged with its place among the lines offered. */
  datatype Line = Line(offer: nat, text: string)

  /** What reaches the file: a line, or the report of a number of lines dropped. */
  datatype Record = Written(line: Line) | Report(count: nat)

  /** Where the worker stands: about to take the queue, holding a batch, writing it, or gone. */
  datatype Phase = Waiting | Holding | Writing | Exited

  /** The mutex-protected fields, the worker's locals (`taken` is its copy of the drop count), the file,
      and as history the texts offered, which of them were lost, and the drop counts never reported. */
  datatype State = State(queue: seq<Line>, dropped: nat, stopping: bool,
                         phase: Phase, batch: seq<Line>, taken: nat, output: seq<Record>,
                         offers: seq<string>, lost: set<nat>, unreported: nat)

  datatype Event = Write(text: string) | Wake | Open(success: bool) | Emit | Stop | Clear | Start

  function Step(s: State, e: Event): (s': State) {
    match e
    case Write(text) =>
      var id := |s.offers|;
      if s.stopping then s
      else if |s.queue| >= MAX_QUEUED then
        s.(offers := s.offers + [text], dropped := s.dropped + 1, lost := s.lost + {id})
      else s.(offers := s.offers + [text], queue := s.queue + [Line(id, text)])
    case Wake =>
      if s.phase != Waiting || (!s.stopping && s.queue == []) then s
      else if s.queue == [] && s.stopping then
        s.(phase := Exited, dropped := 0, unreported := s.unreported + s.dropped)
      else s.(phase := Holding, batch := s.queue, queue := [], taken := s.dropped, dropped := 0)
    case Open(success) =>
      if s.phase != Holding then s
      else if success then
        s.(phase := Writing, output := s.output + (if s.taken != 0 then [Report(s.taken)] else []), taken := 0)
      else
        s.(phase := Waiting, dropped := s.dropped + s.taken + |s.batch|, taken := 0, batch := [],
           lost := s.lost + Ids(s.batch))
    case Emit =>
      if s.phase != Writing then s
      else if s.batch == [] then s.(phase := Waiting)
      else s.(output := s.output + [Written(s.batch[0])], batch := s.batch[1..])
    case Stop => s.(stopping := true)
    case Clear => if s.phase == Exited then s.(queue := []) else s
    case Start => if s.phase == Exited then s.(phase := Waiting, stopping := false) else s
  }

  function Run(s: State, events: seq<Event>): (s': State)
    decreases |events|
  {
    if events == [] then s else Step(Run(s, events[..|events| - 1]), events[|events| - 1])
  }

  /** A logger just started for the first time. */
  const INITIAL := State([], 0, false, Waiting, [], 0, [], [], {}, 0)

  function Ids(lines: seq<Line>): (ids: set<nat>)
    decreases |lines|
  {
    if lines == [] then {} else Ids(lines[..|lines| - 1]) + {lines[|lines| - 1].offer}
  }

  lemma {:induction false} IdsAppend(a: seq<Line>, b: seq<Line>)
    ensures Ids(a + b) == Ids(a) + Ids(b)
    decreases |b|
  {
    if b == [] {
      assert a + b == a;
    } else {
      var front := b[..|b| - 1];
      assert (a + b)[..|a + b| - 1] == a + front;
      IdsAppend(a, front);
    }
  }

  lemma {:induction false} IdsIndex(lines: seq<Line>, id: nat)
    ensures id in Ids(lines) <==> exists i :: 0 <= i < |lines| && lines[i].offer == id
    decreases |lines|
  {
    if lines != [] {
      var front := lines[..|lines| - 1];
      IdsIndex(front, id);
      if id in Ids(front) {
        var i :| 0 <= i < |front| && front[i].offer == id;
        assert lines[i].offer == id;
      }
    }
  }

  /** The lines in the file, in file order. */
  function LinesOf(output: seq<Record>): (lines: seq<Line>)
    decreases |output|
  {
    if output == [] then []
    else
      var before := LinesOf(output[..|output| - 1]);
      match output[|output| - 1]
      case Written(line) => before + [line]
      case Report(_) => before
  }

  /** The number of lines the file says were dropped. */
  function Reported(output: seq<Record>): (count: nat)
    decreases |output|
  {
    if output == [] then 0
    else
      var before := Reported(output[..|output| - 1]);
      match output[|output| - 1]
      case Written(_) => before
      case Report(count) => before + count
  }

  lemma Appended(output: seq<Record>, r: Record)
    ensures LinesOf(output + [r]) == LinesOf(output) + (if r.Written? then [r.line] else [])
    ensures Reported(output + [r]) == Reported(output) + (if r.Report? then r.count else 0)
  {
    assert (output + [r])[..|output|] == output;
  }

  // ---------------------------------------------------------------- invariant

  /** Each line carries the text offered under its number, and the numbers grow. */
  predicate InOrder(lines: seq<Line>, offers: seq<string>) {
    && (forall i :: 0 <= i < |lines| ==> lines[i].offer < |offers| && lines[i].text == offers[lines[i].offer])
    && (forall i, j :: 0 <= i < j < |lines| ==> lines[i].offer < lines[j].offer)
  }

  /** Every offer is either among the lines or lost, and not both. */
  ghost predicate Split(lines: seq<Line>, lost: set<nat>, n: nat) {
    && Ids(lines) !! lost
    && (forall id: nat :: id < n <==> id in Ids(lines) + lost)
    && |lines| + |lost| == n
  }

  /** The lines not lost: written, then in the worker's batch, then queued. */
  function Lines(s: State): (lines: seq<Line>) { LinesOf(s.output) + (s.batch + s.queue) }

  ghost predicate Inv(s: State) {
    && InOrder(Lines(s), s.offers)
    && Split(Lines(s), s.lost, |s.offers|)
    && |s.lost| == s.dropped + s.taken + Reported(s.output) + s.unreported
    && |s.queue| <= MAX_QUEUED
    && (s.phase == Waiting || s.phase == Exited ==> s.batch == [] && s.taken == 0)
    && (s.phase == Writing ==> s.taken == 0)
    && (s.phase == Exited ==> s.stopping && s.queue == [] && s.dropped == 0)
  }

  lemma OfferKept(lines: seq<Line>, lost: set<nat>, offers: seq<string>, text: string)
    requires InOrder(lines, offers) && Split(lines, lost, |offers|)
    ensures InOrder(lines + [Line(|offers|, text)], offers + [text])
    ensures Split(lines + [Line(|offers|, text)], lost, |offers| + 1)
  {
    var more := lines + [Line(|offers|, text)];
    assert more[..|lines|] == lines;
    assert Ids(more) == Ids(lines) + {|offers|};
    assert |offers| !in Ids(lines) + lost;
  }

  lemma OfferLost(lines: seq<Line>, lost: set<nat>, offers: seq<string>, text: string)
    requires InOrder(lines, offers) && Split(lines, lost, |offers|)
    ensures InOrder(lines, offers + [text]) && Split(lines, lost + {|offers|}, |offers| + 1)
    ensures |lost + {|offers|}| == |lost| + 1
  {
    assert |offers| !in Ids(lines) + lost;
  }

  lemma {:induction false} IdsCount(lines: seq<Line>, offers: seq<string>)
    requires InOrder(lines, offers)
    ensures |Ids(lines)| == |lines|
    decreases |lines|
  {
    if lines != [] {
      var front := lines[..|lines| - 1];
      IdsCount(front, offers);
      IdsIndex(front, lines[|lines| - 1].offer);
    }
  }

  /** Growing numbers do not repeat. */
  lemma IdsDisjoint(a: seq<Line>, b: seq<Line>, offers: seq<string>)
    requires InOrder(a + b, offers)
    ensures Ids(a) !! Ids(b) && InOrder(a, offers) && InOrder(b, offers)
  {
    assert forall i :: 0 <= i < |a| ==> a[i] == (a + b)[i];
    assert forall i :: 0 <= i < |b| ==> b[i] == (a + b)[|a| + i];
    assert forall i, j :: 0 <= i < |a| && 0 <= j < |b| ==> a[i].offer < b[j].offer;
    forall id | id in Ids(a) ensures id !in Ids(b) {
      IdsIndex(a, id);
      IdsIndex(b, id);
    }
  }

  /** Leaving out a batch from between what is written and what is queued keeps the order. */
  lemma OrderWithout(written: seq<Line>, batch: seq<Line>, queue: seq<Line>, offers: seq<string>)
    requires InOrder(written + (batch + queue), offers)
    ensures InOrder(written + queue, offers)
  {
    var all, rest := written + (batch + queue), written + queue;
    forall i | 0 <= i < |rest| ensures rest[i] == all[if i < |written| then i else i + |batch|] {
    }
  }

  lemma PartsJoin(written: seq<Line>, batch: seq<Line>, queue: seq<Line>)
    ensures Ids(written + (batch + queue)) == Ids(written) + Ids(batch + queue)
    ensures Ids(batch + queue) == Ids(batch) + Ids(queue)
    ensures Ids(written + queue) == Ids(written) + Ids(queue)
  {
    IdsAppend(written, queue);
    IdsAppend(batch, queue);
    IdsAppend(written, batch + queue);
  }

  lemma Apart(all: set<nat>, rest: set<nat>, written: set<nat>, both: set<nat>, batch: set<nat>, queue: set<nat>)
    requires all == written + both && both == batch + queue && rest == written + queue
    requires written !! both && batch !! queue
    ensures written !! batch !! queue && all == rest + batch && rest !! batch
  {
  }

  /** The three places lines can be hold different ones. */
  lemma Parts(written: seq<Line>, batch: seq<Line>, queue: seq<Line>, offers: seq<string>)
    requires InOrder(written + (batch + queue), offers)
    ensures Ids(written) !! Ids(batch) !! Ids(queue) && |Ids(batch)| == |batch|
    ensures Ids(written + (batch + queue)) == Ids(written + queue) + Ids(batch) && Ids(written + queue) !! Ids(batch)
    ensures Ids(written + queue) == Ids(written) + Ids(queue)
  {
    IdsDisjoint(written, batch + queue, offers);
    IdsDisjoint(batch, queue, offers);
    IdsCount(batch, offers);
    PartsJoin(written, batch, queue);
    Apart(Ids(written + (batch + queue)), Ids(written + queue), Ids(written), Ids(batch + queue), Ids(batch), Ids(queue));
  }

  lemma SplitWithout(all: set<nat>, rest: set<nat>, batch: set<nat>, lost: set<nat>)
    requires all == rest + batch && rest !! batch && all !! lost
    ensures rest !! lost + batch && rest + (lost + batch) == all + lost && |lost + batch| == |lost| + |batch|
  {
    assert lost !! batch;
  }

  lemma BatchLost(all: seq<Line>, rest: seq<Line>, batch: seq<Line>, lost: set<nat>, n: nat)
    requires Split(all, lost, n) && |all| == |rest| + |batch| && |Ids(batch)| == |batch|
    requires Ids(all) == Ids(rest) + Ids(batch) && Ids(rest) !! Ids(batch)
    ensures Split(rest, lost + Ids(batch), n) && |lost + Ids(batch)| == |lost| + |batch|
  {
    SplitWithout(Ids(all), Ids(rest), Ids(batch), lost);
    SplitAgain(all, lost, rest, lost + Ids(batch), n);
  }

  /** A split depends only on which offers are covered and how many. */
  lemma SplitAgain(a: seq<Line>, lost: set<nat>, b: seq<Line>, lost': set<nat>, n: nat)
    requires Split(a, lost, n) && Ids(b) !! lost' && Ids(b) + lost' == Ids(a) + lost
    requires |b| + |lost'| == |a| + |lost|
    ensures Split(b, lost', n)
  {
  }

  lemma QueueGrows(written: seq<Line>, batch: seq<Line>, queue: seq<Line>, line: Line)
    ensures written + (batch + (queue + [line])) == written + (batch + queue) + [line]
  {
  }

  lemma WriteKeeps(s: State, text: string)
    requires Inv(s)
    ensures Inv(Step(s, Write(text)))
  {
    if !s.stopping {
      if |s.queue| >= MAX_QUEUED {
        OfferLost(Lines(s), s.lost, s.offers, text);
      } else {
        EnqueueKeeps(s, text);
      }
    }
  }

  lemma EnqueueKeeps(s: State, text: string)
    requires Inv(s) && !s.stopping && |s.queue| < MAX_QUEUED
    ensures Inv(s.(offers := s.offers + [text], queue := s.queue + [Line(|s.offers|, text)]))
  {
    OfferKept(Lines(s), s.lost, s.offers, text);
    QueueGrows(LinesOf(s.output), s.batch, s.queue, Line(|s.offers|, text));
  }

  lemma OpenFailKeeps(s: State)
    requires InOrder(Lines(s), s.offers) && Split(Lines(s), s.lost, |s.offers|)
    ensures InOrder(LinesOf(s.output) + s.queue, s.offers)
    ensures Split(LinesOf(s.output) + s.queue, s.lost + Ids(s.batch), |s.offers|)
    ensures |s.lost + Ids(s.batch)| == |s.lost| + |s.batch|
  {
    OrderWithout(LinesOf(s.output), s.batch, s.queue, s.offers);
    Parts(LinesOf(s.output), s.batch, s.queue, s.offers);
    BatchLost(Lines(s), LinesOf(s.output) + s.queue, s.batch, s.lost, |s.offers|);
  }

  lemma OpenKeeps(s: State, success: bool)
    requires Inv(s) && s.phase == Holding
    ensures Inv(Step(s, Open(success)))
  {
    if success {
      if s.taken != 0 {
        Appended(s.output, Report(s.taken));
      } else {
        assert s.output + [] == s.output;
      }
    } else {
      OpenFailKeeps(s);
      assert [] + s.queue == s.queue;
    }
  }

  lemma EmitKeeps(s: State)
    requires Inv(s) && s.phase == Writing && s.batch != []
    ensures Inv(Step(s, Emit))
  {
    Appended(s.output, Written(s.batch[0]));
    assert LinesOf(s.output) + [s.batch[0]] + (s.batch[1..] + s.queue) == Lines(s);
  }

  lemma StepKeeps(s: State, e: Event)
    requires Inv(s)
    ensures Inv(Step(s, e))
  {
    match e
    case Write(text) => WriteKeeps(s, text);
    case Wake => assert s.batch == [] ==> s.queue + [] == s.batch + s.queue;
    case Open(success) => if s.phase == Holding { OpenKeeps(s, success); }
    case Emit => if s.phase == Writing && s.batch != [] { EmitKeeps(s); }
    case Stop =>
    case Clear =>
    case Start =>
  }

  lemma {:induction false} RunKeeps(events: seq<Event>)
    ensures Inv(Run(INITIAL, events))
    decreases |events|
  {
    if events != [] {
      RunKeeps(events[..|events| - 1]);
      StepKeeps(Run(INITIAL, events[..|events| - 1]), events[|events| - 1]);
    }
  }

  // ---------------------------------------------------------------- results

  function One(b: bool): (n: nat) { if b then 1 else 0 }

  /** Over every run, every line offered while not stopping is in exactly one place: in the file, in the
      worker's batch, in the queue, or lost; and the lines lost are exactly as many as the counts say. */
  lemma Conservation(events: seq<Event>, s: State, id: nat)
    requires s == Run(INITIAL, events) && id < |s.offers|
    ensures One(id in Ids(LinesOf(s.output))) + One(id in Ids(s.batch)) + One(id in Ids(s.queue)) + One(id in s.lost) == 1
    ensures |s.lost| == s.dropped + s.taken + Reported(s.output) + s.unreported
    ensures |LinesOf(s.output)| + |s.batch| + |s.queue| + |s.lost| == |s.offers|
  {
    RunKeeps(events);
    Parts(LinesOf(s.output), s.batch, s.queue, s.offers);
    assert id in Ids(Lines(s)) + s.lost;
  }

  /** The file holds the offered texts, each under its own number, in the order they were offered. */
  lemma WrittenInOrder(events: seq<Event>)
    ensures InOrder(LinesOf(Run(INITIAL, events).output), Run(INITIAL, events).offers)
  {
    RunKeeps(events);
    var s := Run(INITIAL, events);
    assert forall i :: 0 <= i < |LinesOf(s.output)| ==> LinesOf(s.output)[i] == Lines(s)[i];
  }

  /** When `stop` clears the queue after joining the worker there is nothing left in it: every line has
      been written or lost. */
  lemma ClearLosesNothing(events: seq<Event>, s: State)
    requires s == Run(INITIAL, events) && s.phase == Exited
    ensures Step(s, Clear) == s && s.queue == [] && s.batch == []
    ensures |LinesOf(s.output)| + |s.lost| == |s.offers|
    ensures |s.lost| == Reported(s.output) + s.unreported
  {
    RunKeeps(events);
  }

  /** Between batches the worker holds nothing, and no count is pending once it has gone. */
  lemma WaitingHoldsNothing(events: seq<Event>, s: State)
    requires s == Run(INITIAL, events)
    ensures s.phase == Waiting || s.phase == Exited ==> s.batch == [] && s.taken == 0
    ensures s.phase == Exited ==> s.dropped == 0
  {
    RunKeeps(events);
  }

  // ---------------------------------------------------------------- nothing offered is overlooked

  /** Whether the logger has been told to stop, by the events alone: the last of `stop` and of a `start` that
      found the worker gone decides. */
  predicate Stopped(events: seq<Event>)
    decreases |events|
  {
    if events == [] then false
    else
      var front, e := events[..|events| - 1], events[|events| - 1];
      if e == Stop then true
      else if e == Start && Run(INITIAL, front).phase == Exited then false
      else Stopped(front)
  }

  /** The texts offered while it was not. */
  function Offered(events: seq<Event>): (texts: seq<string>)
    decreases |events|
  {
    if events == [] then []
    else
      var front, e := events[..|events| - 1], events[|events| - 1];
      Offered(front) + (if e.Write? && !Stopped(front) then [e.text] else [])
  }

  /** The history that the other results are about is what was really offered, in order. */
  lemma {:induction false} EveryOfferCounts(events: seq<Event>)
    ensures Run(INITIAL, events).offers == Offered(events) && Run(INITIAL, events).stopping == Stopped(events)
    decreases |events|
  {
    if events != [] {
      var front, e := events[..|events| - 1], events[|events| - 1];
      EveryOfferCounts(front);
      match e
      case Write(text) =>
      case Wake =>
      case Open(success) =>
      case Emit =>
      case Stop =>
      case Clear =>
      case Start =>
    }
  }

  // ---------------------------------------------------------------- the worker gets its work done

  function Emits(events: seq<Event>): (n: nat)
    decreases |events|
  {
    if events == [] then 0 else Emits(events[..|events| - 1]) + (if events[|events| - 1] == Emit then 1 else 0)
  }

  /** While a batch is being written its lines go out one by one, whatever is offered meanwhile, and when
      they are all out the worker waits again. */
  lemma {:induction false} BatchIsWritten(s: State, events: seq<Event>)
    requires s.phase == Writing && Emits(events) <= |s.batch|
    ensures var s', n := Run(s, events), Emits(events);
            && s'.phase == Writing && s'.batch == s.batch[n..] && LinesOf(s'.output) == LinesOf(s.output) + s.batch[..n]
            && Reported(s'.output) == Reported(s.output) && (n == |s.batch| ==> Step(s', Emit).phase == Waiting)
    decreases |events|
  {
    if events != [] {
      var front, e := events[..|events| - 1], events[|events| - 1];
      BatchIsWritten(s, front);
      var s1, n := Run(s, front), Emits(front);
      match e
      case Emit =>
        Appended(s1.output, Written(s1.batch[0]));
        assert s.batch[..n + 1] == s.batch[..n] + [s.batch[n]];
      case Write(text) =>
      case Wake =>
      case Open(success) =>
      case Stop =>
      case Clear =>
      case Start =>
    }
  }

  /** The turns of a worker whose file opens: it takes what is queued, writes it, and looks again. */
  function Drain(n: nat): (events: seq<Event>) { [Wake, Open(true)] + Turns(n + 1) + [Wake] }

  function Turns(n: nat): (events: seq<Event>) { if n == 0 then [] else Turns(n - 1) + [Emit] }

  lemma {:induction false} RunAppend(s: State, a: seq<Event>, b: seq<Event>)
    ensures Run(s, a + b) == Run(Run(s, a), b)
    decreases |b|
  {
    if b == [] {
      assert a + b == a;
    } else {
      assert (a + b)[..|a + b| - 1] == a + b[..|b| - 1];
      RunAppend(s, a, b[..|b| - 1]);
    }
  }

  lemma {:induction false} TurnsEmit(n: nat)
    ensures |Turns(n)| == n && Emits(Turns(n)) == n
  {
    if n > 0 {
      TurnsEmit(n - 1);
      assert Turns(n)[..n - 1] == Turns(n - 1);
    }
  }

  lemma RunOne(s: State, e: Event)
    ensures Run(s, [e]) == Step(s, e)
  {
    assert [e][..0] == [];
    assert Run(s, []) == s;
  }

  /** Taking a batch and opening the file for it. */
  lemma TakesBatch(s: State)
    requires s.phase == Waiting && s.queue != []
    ensures var s' := Run(s, [Wake, Open(true)]);
            && s'.phase == Writing && s'.batch == s.queue && s'.queue == [] && s'.dropped == 0 && s'.stopping == s.stopping
            && LinesOf(s'.output) == LinesOf(s.output) && Reported(s'.output) == Reported(s.output) + s.dropped && s'.lost == s.lost
  {
    assert [Wake, Open(true)] == [Wake] + [Open(true)];
    RunAppend(s, [Wake], [Open(true)]);
    RunOne(s, Wake);
    RunOne(Step(s, Wake), Open(true));
    if s.dropped != 0 {
      Appended(s.output, Report(s.dropped));
    } else {
      assert s.output + [] == s.output;
    }
  }

  lemma WritesBatch(s: State)
    requires s.phase == Writing
    ensures var s' := Run(s, Turns(|s.batch| + 1));
            && s'.phase == Waiting && LinesOf(s'.output) == LinesOf(s.output) + s.batch && Reported(s'.output) == Reported(s.output)
            && s'.queue == s.queue && s'.dropped == s.dropped && s'.stopping == s.stopping && s'.lost == s.lost
  {
    var n := |s.batch|;
    TurnsEmit(n);
    BatchIsWritten(s, Turns(n));
    TurnsTouchNothing(s, n);
    assert s.batch[..n] == s.batch && s.batch[n..] == [];
    RunAppend(s, Turns(n), [Emit]);
    RunOne(Run(s, Turns(n)), Emit);
  }

  lemma {:induction false} TurnsTouchNothing(s: State, n: nat)
    ensures var s' := Run(s, Turns(n)); s'.queue == s.queue && s'.dropped == s.dropped && s'.stopping == s.stopping && s'.lost == s.lost
  {
    if n > 0 {
      TurnsTouchNothing(s, n - 1);
      RunAppend(s, Turns(n - 1), [Emit]);
      RunOne(Run(s, Turns(n - 1)), Emit);
    }
  }

  /** `stop` waits for a worker that writes everything queued, reports every drop, loses nothing, and leaves. */
  lemma StopDrains(s: State)
    requires s.phase == Waiting && s.stopping && s.queue != []
    ensures var s' := Run(s, Drain(|s.queue|));
            && s'.phase == Exited && LinesOf(s'.output) == LinesOf(s.output) + s.queue
            && Reported(s'.output) == Reported(s.output) + s.dropped && s'.lost == s.lost
  {
    var n := |s.queue|;
    var s1 := Run(s, [Wake, Open(true)]);
    TakesBatch(s);
    RunAppend(s, [Wake, Open(true)], Turns(n + 1));
    WritesBatch(s1);
    var s2 := Run(s1, Turns(n + 1));
    RunAppend(s, [Wake, Open(true)] + Turns(n + 1), [Wake]);
    RunOne(s2, Wake);
  }

  // ---------------------------------------------------------------- are all drops reported?

  /** The worker's wait is over. */
  predicate Woken(s: State) { s.phase == Waiting && (s.stopping || s.queue != []) }

  predicate Exits(s: State, e: Event) { e == Wake && Woken(s) && s.queue == [] }

  /** The last thing the worker did with a batch was to fail to open the file for it. */
  predicate JustFailed(events: seq<Event>)
    decreases |events|
  {
    if events == [] then false
    else
      var front, e := events[..|events| - 1], events[|events| - 1];
      var s := Run(INITIAL, front);
      if e.Open? && s.phase == Holding then !e.success
      else if e == Wake && Woken(s) then false
      else JustFailed(front)
  }

  /** The worker never left right after such a failure. */
  predicate LeavesReported(events: seq<Event>)
    decreases |events|
  {
    if events == [] then true
    else
      var front, e := events[..|events| - 1], events[|events| - 1];
      LeavesReported(front) && !(Exits(Run(INITIAL, front), e) && JustFailed(front))
  }

  /** A drop count is pending because the file has just failed to open, or beside a full queue. */
  ghost predicate PendingOk(s: State, failed: bool) {
    && (failed ==> s.dropped > 0 && s.phase != Holding)
    && (s.dropped > 0 && !failed ==> |s.queue| >= MAX_QUEUED)
    && (s.phase == Holding ==> s.batch != [])
  }

  lemma PendingStep(s: State, failed: bool, e: Event, failed': bool)
    requires PendingOk(s, failed) && (s.phase == Exited ==> s.queue == [])
    requires failed' == (if e.Open? && s.phase == Holding then !e.success else if e == Wake && Woken(s) then false else failed)
    ensures PendingOk(Step(s, e), failed')
  {
    match e
    case Write(text) =>
    case Wake =>
    case Open(success) =>
    case Emit =>
    case Stop =>
    case Clear =>
    case Start =>
  }

  lemma {:induction false} PendingRuns(events: seq<Event>)
    ensures PendingOk(Run(INITIAL, events), JustFailed(events))
    decreases |events|
  {
    if events != [] {
      var front := events[..|events| - 1];
      PendingRuns(front);
      RunKeeps(front);
      PendingStep(Run(INITIAL, front), JustFailed(front), events[|events| - 1], JustFailed(events));
    }
  }

  /** Only a worker that leaves with a count pending adds to what is never reported. */
  lemma UnreportedGrows(s: State, e: Event)
    ensures Step(s, e).unreported == s.unreported + if Exits(s, e) then s.dropped else 0
  {
    match e
    case Write(text) =>
    case Wake =>
    case Open(success) =>
    case Emit =>
    case Stop =>
    case Clear =>
    case Start =>
  }

  lemma {:induction false} UnreportedIff(events: seq<Event>)
    ensures Run(INITIAL, events).unreported == 0 <==> LeavesReported(events)
    decreases |events|
  {
    if events != [] {
      var front := events[..|events| - 1];
      UnreportedIff(front);
      PendingRuns(front);
      UnreportedGrows(Run(INITIAL, front), events[|events| - 1]);
    }
  }

  /** When the worker has left, every lost line has been reported in the file if and only if it never left
      right after a failure to open the file: a full queue alone never costs a report. */
  lemma AllReportedIff(events: seq<Event>, s: State)
    requires s == Run(INITIAL, events) && s.phase == Exited
    ensures |s.lost| == Reported(s.output) <==> LeavesReported(events)
  {
    ClearLosesNothing(events, s);
    UnreportedIff(events);
  }

  /** And that can happen: one line whose file does not open, then `stop`. */
  lemma DropsGoUnreported(text: string)
    ensures var s := Run(INITIAL, [Write(text), Wake, Open(false), Stop, Wake]);
            s.phase == Exited && s.lost == {0} && s.output == [] && s.unreported == 1
  {
    var events := [Write(text), Wake, Open(false), Stop, Wake];
    assert events[..4] == [Write(text), Wake, Open(false), Stop];
    assert events[..4][..3] == [Write(text), Wake, Open(false)];
    assert events[..4][..3][..2] == [Write(text), Wake];
    assert events[..4][..3][..2][..1] == [Write(text)];
    assert events[..4][..3][..2][..1][..0] == [];
    var s1 := Step(INITIAL, Write(text));
    assert s1 == Run(INITIAL, events[..4][..3][..2][..1]);
    var s2 := Step(s1, Wake);
    assert s2 == Run(INITIAL, events[..4][..3][..2]);
    assert s2.batch == [Line(0, text)] && Ids(s2.batch) == {0} by { assert s2.batch[0].offer == 0; }
    var s3 := Step(s2, Open(false));
    assert s3 == Run(INITIAL, events[..4][..3]) && s3.dropped == 1;
  }

  // ---------------------------------------------------------------- the object

  lemma RunNext(events: seq<Event>, e: Event)
    ensures Run(INITIAL, events + [e]) == Step(Run(INITIAL, events), e)
  {
    assert (events + [e])[..|events|] == events;
  }

  /** The logger and its worker's locals. Each method is one atomic region of the source and takes one
      step of the machine, so the object is always in a state that some run reaches. */
  class AsyncLogger {
    var queue: seq<Line>
    var dropped: nat
    var stopping: bool
    var phase: Phase
    var batch: seq<Line>
    var taken: nat
    var output: seq<Record>
    var next: nat
    ghost var state: State
    ghost var events: seq<Event>

    ghost predicate Valid()
      reads this
    {
      && state == Run(INITIAL, events)
      && queue == state.queue && dropped == state.dropped && stopping == state.stopping
      && phase == state.phase && batch == state.batch && taken == state.taken && output == state.output
      && next == |state.offers|
    }

    constructor ()
      ensures Valid() && state == INITIAL
    {
      queue, dropped, stopping := [], 0, false;
      phase, batch, taken, output, next := Waiting, [], 0, [], 0;
      state, events := INITIAL, [];
    }

    /** The machine takes the step that the fields have taken. */
    ghost method Record(e: Event)
      requires state == Run(INITIAL, events)
      modifies this`state, this`events
      ensures state == Step(old(state), e) == Run(INITIAL, events)
    {
      RunNext(events, e);
      state, events := Step(state, e), events + [e];
    }

    method Write(text: string)
      requires Valid()
      modifies this
      ensures Valid() && state == Step(old(state), Event.Write(text))
    {
      Record(Event.Write(text));
      if stopping {
        return;
      }
      next := next + 1;
      if |queue| >= MAX_QUEUED {
        dropped := dropped + 1;
        return;
      }
      queue := queue + [Line(next - 1, text)];
    }

    /** The worker's lock region, entered once its wait condition holds. */
    method Take()
      requires Valid() && phase == Waiting && (stopping || queue != [])
      modifies this
      ensures Valid() && state == Step(old(state), Wake)
      ensures phase == Exited <==> old(stopping && queue == [])
    {
      WaitingHoldsNothing(events, state);
      Record(Wake);
      batch, queue := queue, [];
      taken, dropped := dropped, 0;
      if batch == [] && stopping {
        taken, phase := 0, Exited;
      } else {
        phase := Holding;
      }
    }

    /** Opening the file and reporting what was dropped, or giving the batch up and carrying the count. */
    method OpenFile(success: bool)
      requires Valid() && phase == Holding
      modifies this
      ensures Valid() && state == Step(old(state), Open(success))
    {
      Record(Open(success));
      if success {
        if taken != 0 {
          output := output + [Report(taken)];
        }
        phase := Writing;
      } else {
        dropped := dropped + (taken + |batch|);
        batch, phase := [], Waiting;
      }
      taken := 0;
    }

    method WriteLine()
      requires Valid() && phase == Writing
      modifies this
      ensures Valid() && state == Step(old(state), Emit)
    {
      Record(Emit);
      if batch == [] {
        phase := Waiting;
      } else {
        output, batch := output + [Written(batch[0])], batch[1..];
      }
    }

    method BeginStop()
      requires Valid()
      modifies this
      ensures Valid() && state == Step(old(state), Stop)
    {
      Record(Stop);
      stopping := true;
    }

    /** The end of `stop`, once the worker has been joined: the queue is empty already. */
    method FinishStop()
      requires Valid() && phase == Exited
      modifies this
      ensures Valid() && state == old(state) && old(queue) == []
    {
      ClearLosesNothing(events, state);
      Record(Clear);
      queue := [];
    }

    /** The end of a `start` whose probe of the file succeeded; resetting the drop count forgets nothing. */
    method Restart()
      requires Valid() && phase == Exited
      modifies this
      ensures Valid() && state == Step(old(state), Start) && old(dropped) == 0
    {
      WaitingHoldsNothing(events, state);
      Record(Start);
      dropped, stopping, phase := 0, false, Waiting;
    }
  }
}
