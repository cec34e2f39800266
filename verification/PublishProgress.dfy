/** What the publish protocol of the gzip cache achieves: where every run without faults ends, that a
    request after it is served, and what a source that changes back under the worker's hands leads to. */
module PublishProgress {
  import opened Basics
  import opened Gzip
  import opened Identity
  import opened PublishProtocol

  /** The chunks are reads of the whole content of the source. */
  predicate IsReading(w: World, id: SourceId, chunks: seq<Bytes>) {
    id in w.content && Flatten(chunks) == w.content[id] && Sized(chunks)
  }

  predicate Sized(chunks: seq<Bytes>) { forall i :: 0 <= i < |chunks| ==> 0 < |chunks[i]| <= CHUNK }

  /** The member written for these chunks. */
  function Written(w: World, chunks: seq<Bytes>): (data: Bytes) {
    Member(w.codec, chunks, w.codec.crc(0, Flatten(chunks)), |Flatten(chunks)|)
  }

  lemma WrittenReadsBack(w: World, chunks: seq<Bytes>)
    requires WellFormed(w)
    ensures w.gunzip(Written(w, chunks)) == Some(Flatten(chunks)) && |Written(w, chunks)| >= 18
  {
    MemberRoundTrip(w.codec, chunks);
  }

  lemma StreamCompletes(w: World, fed: seq<Bytes>, crc: nat, file: Bytes)
    requires EncoderAt(w.codec, fed, crc, file)
    ensures file + Trailer(w.codec, fed, crc, |Flatten(fed)|) == Written(w, fed)
  {
  }

  /** It is kept if it fits the budget and saves more than a twentieth. */
  predicate WorthKeeping(w: World, id: SourceId, size: nat) {
    size <= w.maxBytes && size < id.size - id.size / 20
  }

  /** What is published is the same. */
  predicate Same(d: Disk, d': Disk) { d'.gz == d.gz && d'.meta == d.meta && d'.skip == d.skip }

  /** The pair or the skip marker of the source has been published, and nothing else has changed. */
  predicate Finished(w: World, d: Disk, d': Disk, id: SourceId, data: Bytes) {
    var key := w.key(id);
    if WorthKeeping(w, id, |data|)
    then d'.gz == d.gz[key := data] && d'.meta == d.meta[key := w.mark(id)] && d'.skip == d.skip - {key}
    else d'.gz == d.gz - {key} && d'.meta == d.meta - {key} && d'.skip == d.skip[key := w.skipMark(id)]
  }

  // ---------------------------------------------------------------- every run without faults

  /** Nothing fails, the source does not change, and no other work is begun; requests may do anything. */
  predicate FaultFree(e: Event) {
    match e
    case Work(o) => o.succeeds && o.writes
    case Ask(_, _) | Advance(_) => true
    case Evict(_, _) | EndMaintenance => true
    case Begin(_) | Modify(_) | StartMaintenance | Crash => false
  }

  predicate AllFaultFree(events: seq<Event>) { forall i :: 0 <= i < |events| ==> FaultFree(events[i]) }

  predicate HasTemp(w: World, d: Disk, id: SourceId, data: Bytes) {
    w.key(id) in d.gzTemp && d.gzTemp[w.key(id)] == data
  }

  predicate SkipAt(w: World, d: Disk, d': Disk, id: SourceId, p: Skipping) {
    var key := w.key(id);
    && d'.gz == (if p.DropTemp? || p.DropGz? then d.gz else d.gz - {key})
    && d'.meta == (if p.DropTemp? || p.DropGz? || p.DropMeta? then d.meta else d.meta - {key})
    && d'.skip == (if p.RenameSkip? then d.skip - {key} else d.skip)
    && (p.DropOldSkip? || p.RenameSkip? ==> key in d'.skipTemp && d'.skipTemp[key] == w.skipMark(id))
  }

  predicate PublishAt(w: World, d: Disk, d': Disk, id: SourceId, data: Bytes, p: Publishing) {
    var key := w.key(id);
    && d'.skip == d.skip
    && (!p.WriteMeta? && !p.RetractSkip? ==> key in d'.metaTemp && d'.metaTemp[key] == w.mark(id))
    && match p
       case WriteMeta | DropOldGz => d'.gz == d.gz && d'.meta == d.meta && HasTemp(w, d', id, data)
       case RenameGz => d'.gz == d.gz - {key} && d'.meta == d.meta && HasTemp(w, d', id, data)
       case DropOldMeta => d'.gz == d.gz[key := data] && d'.meta == d.meta
       case RenameMeta => d'.gz == d.gz[key := data] && d'.meta == d.meta - {key}
       case RetractSkip => d'.gz == d.gz[key := data] && d'.meta == d.meta[key := w.mark(id)]
       case RetractGz => false
  }

  /** Where a busy worker stands in a job without faults that found the directory `d`. */
  predicate BusyAt(w: World, d: Disk, d': Disk, id: SourceId, k: Worker)
    requires k.Busy? && id in w.content
  {
    && k.job == id && k.fd == id && k.ok && Sized(k.fed)
    && match k.pc
       case Prepare(_) => Same(d, d')
       case Compress => Same(d, d') && StreamOk(w, d', k) && FedTruly(w, k)
       case Check(_) => Same(d, d') && Flatten(k.fed) == w.content[id] && HasTemp(w, d', id, Written(w, k.fed))
       case Skip(p) => Flatten(k.fed) == w.content[id] && SkipAt(w, d, d', id, p) && !WorthKeeping(w, id, |Written(w, k.fed)|)
       case Publish(p) =>
         && Flatten(k.fed) == w.content[id] && PublishAt(w, d, d', id, Written(w, k.fed), p)
         && WorthKeeping(w, id, |Written(w, k.fed)|)
       case Abort(_) => false
  }

  /** The job is over. */
  ghost predicate Over(w: World, d: Disk, d': Disk, id: SourceId) {
    exists chunks :: IsReading(w, id, chunks) && Finished(w, d, d', id, Written(w, chunks))
  }

  ghost predicate JobAt(w: World, d: Disk, id: SourceId, d': Disk, k: Worker) {
    id in w.content && match k
    case Idle => Over(w, d, d', id)
    case Busy(_, _, _, _, _, _) => BusyAt(w, d, d', id, k)
    case Maintaining => false
  }

  lemma PrepareOn(w: World, d: Disk, d': Disk, id: SourceId, k: Worker, o: Outcome)
    requires id in w.content && k.Busy? && k.pc.Prepare? && BusyAt(w, d, d', id, k) && o.succeeds && o.writes
    requires EncoderAt(w.codec, [], 0, HEADER)
    ensures var r := PrepareStep(w, d', k, k.pc.prepare, o); r.1.Busy? && BusyAt(w, d, r.0, id, r.1)
  {
    match k.pc.prepare
    case ClearGzTemp =>
    case ClearMetaTemp =>
    case ClearSkipTemp =>
    case CreateGzTemp =>
      var r := PrepareStep(w, d', k, CreateGzTemp, o);
      assert StreamOk(w, r.0, r.1) && FedTruly(w, r.1);
  }

  /** One turn of the loop that succeeds. */
  lemma ReadsOne(w: World, d: Disk, k: Worker, o: Outcome)
    requires k.Busy? && k.ok && ReadOk(k, o) && o.writes
    ensures var chunk := ReadChunk(w, k, o.data);
            CompressStep(w, d, k, o) ==
            (d.(gzTemp := d.gzTemp[w.key(k.job) := At(d.gzTemp, w.key(k.job)) + w.codec.emit(k.fed, chunk)]),
             k.(fed := k.fed + [chunk], crc := w.codec.crc(k.crc, chunk)))
  {
  }

  lemma FeedOn(w: World, d: Disk, d': Disk, id: SourceId, k: Worker, o: Outcome, r: (Disk, Worker))
    requires id in w.content && k.Busy? && k.pc.Compress? && BusyAt(w, d, d', id, k) && ReadOk(k, o) && |w.content[id]| == id.size
    requires var chunk, file := ReadChunk(w, k, o.data), At(d'.gzTemp, w.key(id)) + w.codec.emit(k.fed, ReadChunk(w, k, o.data));
             && r == (d'.(gzTemp := d'.gzTemp[w.key(id) := file]), k.(fed := k.fed + [chunk], crc := w.codec.crc(k.crc, chunk)))
             && EncoderAt(w.codec, k.fed + [chunk], w.codec.crc(k.crc, chunk), file)
    ensures BusyAt(w, d, r.0, id, r.1)
  {
    var chunk := ReadChunk(w, k, o.data);
    FlattenSnoc(k.fed, chunk);
    ReadKeepsPrefix(w, k, o.data);
    assert StreamOk(w, r.0, r.1) && FedTruly(w, r.1);
  }

  lemma FinishOn(w: World, d: Disk, d': Disk, id: SourceId, k: Worker, o: Outcome)
    requires id in w.content && k.Busy? && k.pc.Compress? && BusyAt(w, d, d', id, k) && o.succeeds && o.writes
    requires |Flatten(k.fed)| == id.size == |w.content[id]|
    ensures var r := CompressStep(w, d', k, o); r.1.Busy? && BusyAt(w, d, r.0, id, r.1)
  {
    StreamCompletes(w, k.fed, k.crc, At(d'.gzTemp, w.key(id)));
  }

  lemma CompressOn(w: World, d: Disk, d': Disk, id: SourceId, k: Worker, o: Outcome)
    requires WellFormed(w) && id in w.content && k.Busy? && k.pc.Compress? && BusyAt(w, d, d', id, k)
    requires o.succeeds && o.writes
    ensures var r := CompressStep(w, d', k, o); r.1.Busy? && BusyAt(w, d, r.0, id, r.1)
  {
    if |Flatten(k.fed)| == id.size {
      FinishOn(w, d, d', id, k, o);
    } else if ReadOk(k, o) {
      EncoderFeed(w.codec, k.fed, k.crc, At(d'.gzTemp, w.key(id)), ReadChunk(w, k, o.data));
      ReadsOne(w, d', k, o);
      FeedOn(w, d, d', id, k, o, CompressStep(w, d', k, o));
    } else {
      assert CompressStep(w, d', k, o) == (d', k);
    }
  }

  lemma CheckOn(w: World, d: Disk, d': Disk, id: SourceId, k: Worker, o: Outcome)
    requires id in w.content && k.Busy? && k.pc.Check? && BusyAt(w, d, d', id, k) && o.succeeds
    ensures var r := CheckStep(w, d', k, k.pc.check, o); r.1.Busy? && BusyAt(w, d, r.0, id, r.1)
  {
  }

  lemma SkipOn(w: World, d: Disk, d': Disk, id: SourceId, k: Worker, o: Outcome)
    requires id in w.content && k.Busy? && k.pc.Skip? && k.pc.skip != RenameSkip && BusyAt(w, d, d', id, k) && o.succeeds
    ensures var r := SkipStep(w, d', k, k.pc.skip, o); r.1.Busy? && BusyAt(w, d, r.0, id, r.1)
  {
    match k.pc.skip
    case DropTemp =>
    case DropGz =>
    case DropMeta =>
    case WriteSkip =>
    case DropOldSkip =>
  }

  lemma SkipEnds(w: World, d: Disk, d': Disk, id: SourceId, k: Worker, o: Outcome)
    requires id in w.content && k.Busy? && k.pc == Skip(RenameSkip) && BusyAt(w, d, d', id, k) && o.succeeds
    ensures var r := SkipStep(w, d', k, RenameSkip, o); r.1.Idle? && Over(w, d, r.0, id)
  {
    var r := SkipStep(w, d', k, RenameSkip, o);
    assert r.0.skip == d.skip[w.key(id) := w.skipMark(id)];
    assert IsReading(w, id, k.fed) && Finished(w, d, r.0, id, Written(w, k.fed));
  }

  lemma PublishOn(w: World, d: Disk, d': Disk, id: SourceId, k: Worker, o: Outcome)
    requires id in w.content && k.Busy? && k.pc.Publish? && k.pc.publish != RetractSkip && BusyAt(w, d, d', id, k) && o.succeeds
    ensures var r := PublishStep(w, d', k, k.pc.publish, o); r.1.Busy? && BusyAt(w, d, r.0, id, r.1)
  {
    var key := w.key(id);
    match k.pc.publish
    case WriteMeta =>
    case DropOldGz =>
    case RenameGz => assert (d.gz - {key})[key := Written(w, k.fed)] == d.gz[key := Written(w, k.fed)];
    case DropOldMeta =>
    case RenameMeta => assert (d.meta - {key})[key := w.mark(id)] == d.meta[key := w.mark(id)];
  }

  lemma PublishEnds(w: World, d: Disk, d': Disk, id: SourceId, k: Worker, o: Outcome)
    requires id in w.content && k.Busy? && k.pc == Publish(RetractSkip) && BusyAt(w, d, d', id, k) && o.succeeds
    ensures var r := PublishStep(w, d', k, RetractSkip, o); r.1.Idle? && Over(w, d, r.0, id)
  {
    var r := PublishStep(w, d', k, RetractSkip, o);
    assert IsReading(w, id, k.fed) && Finished(w, d, r.0, id, Written(w, k.fed));
  }

  lemma WorkOn(w: World, d: Disk, d': Disk, id: SourceId, k: Worker, o: Outcome)
    requires WellFormed(w) && k.Busy? && JobAt(w, d, id, d', k) && o.succeeds && o.writes
    ensures var r := WorkStep(w, d', k, o); JobAt(w, d, id, r.0, r.1)
  {
    match k.pc
    case Prepare(_) =>
      EncoderStart(w.codec);
      PrepareOn(w, d, d', id, k, o);
    case Compress => CompressOn(w, d, d', id, k, o);
    case Check(_) => CheckOn(w, d, d', id, k, o);
    case Skip(p) => if p == RenameSkip { SkipEnds(w, d, d', id, k, o); } else { SkipOn(w, d, d', id, k, o); }
    case Publish(p) => if p == RetractSkip { PublishEnds(w, d, d', id, k, o); } else { PublishOn(w, d, d', id, k, o); }
  }

  lemma StepOn(w: World, d: Disk, id: SourceId, s: State, e: Event)
    requires WellFormed(w) && JobAt(w, d, id, s.disk, s.worker) && FaultFree(e)
    ensures var s' := Step(w, s, e); JobAt(w, d, id, s'.disk, s'.worker)
  {
    match e
    case Work(o) => if s.worker.Busy? { WorkOn(w, d, s.disk, id, s.worker, o); }
    case Ask(_, _) =>
    case Advance(_) =>
    case Evict(_, _) =>
    case EndMaintenance =>
  }

  lemma {:induction false} JobRuns(w: World, d: Disk, id: SourceId, s: State, events: seq<Event>)
    requires WellFormed(w) && JobAt(w, d, id, s.disk, s.worker) && AllFaultFree(events)
    ensures var s' := Run(w, s, events); JobAt(w, d, id, s'.disk, s'.worker)
    decreases |events|
  {
    if events != [] {
      JobRuns(w, d, id, s, events[..|events| - 1]);
      StepOn(w, d, id, Run(w, s, events[..|events| - 1]), events[|events| - 1]);
    }
  }

  /** Every run of a job without faults, with any requests in between: the worker never gives the job up,
      and once it is idle again it has left either the pair or the skip marker of its source, by the size
      of the member it wrote, and has changed nothing else that is published. */
  lemma FaultFreeJob(w: World, s: State, id: SourceId, events: seq<Event>, s': State)
    requires WellFormed(w) && s.worker.Idle? && id in w.content && AllFaultFree(events)
    requires s' == Run(w, Step(w, s, Begin(id)), events)
    ensures s'.worker.Idle? ==> Over(w, s.disk, s'.disk, id)
    ensures s'.worker.Idle? || (s'.worker.Busy? && s'.worker.job == id && !s'.worker.pc.Abort?)
  {
    JobRuns(w, s.disk, id, Step(w, s, Begin(id)), events);
  }

  // ---------------------------------------------------------------- every job ends

  /** How many operations a worker has before it at most; a read takes at least one byte. */
  function Rank(k: Worker): (n: int) {
    match k
    case Idle | Maintaining => 0
    case Busy(job, pc, _, fed, _, _) =>
      match pc
      case Prepare(p) => job.size + 9 + (match p case ClearGzTemp => 4 case ClearMetaTemp => 3 case ClearSkipTemp => 2 case CreateGzTemp => 1)
      case Compress => job.size - |Flatten(fed)| + 9
      case Check(c) => if c.Recheck? then 8 else 7
      case Skip(p) => (match p case DropTemp => 6 case DropGz => 5 case DropMeta => 4 case WriteSkip => 3 case DropOldSkip => 2 case RenameSkip => 1)
      case Publish(p) =>
        (match p case WriteMeta => 6 case DropOldGz => 5 case RenameGz => 4 case DropOldMeta => 3 case RenameMeta => 2 case RetractGz => 1 case RetractSkip => 1)
      case Abort(a) => if a.LoseBoth? then 2 else 1
  }

  /** The most operations a job can take. */
  function Operations(id: SourceId): (n: nat) { id.size + 13 }

  /** The event is a turn of the worker, and not one in which a read is asked for more than there can be. */
  predicate IsTurn(k: Worker, e: Event) {
    e.Work? && !(k.Busy? && k.pc.Compress? && e.outcome.succeeds && |Flatten(k.fed)| < k.job.size && !ReadOk(k, e.outcome))
  }

  /** How many turns the worker gets. */
  function WorkTurns(w: World, s: State, events: seq<Event>): (n: nat)
    decreases |events|
  {
    if events == [] then 0
    else
      var front := events[..|events| - 1];
      WorkTurns(w, s, front) + (if IsTurn(Run(w, s, front).worker, events[|events| - 1]) then 1 else 0)
  }

  /** No other work is begun; anything may fail, change or die. */
  predicate BeginsNothing(events: seq<Event>) {
    forall i :: 0 <= i < |events| ==> !events[i].Begin? && !events[i].StartMaintenance?
  }

  lemma CompressFalls(w: World, d: Disk, k: Worker, o: Outcome)
    requires k.Busy? && k.pc.Compress? && |Flatten(k.fed)| <= k.job.size
    ensures var k' := CompressStep(w, d, k, o).1; Rank(k') <= Rank(k) && (IsTurn(k, Work(o)) ==> Rank(k') < Rank(k))
    ensures var k' := CompressStep(w, d, k, o).1; k'.Busy?
  {
    if ReadOk(k, o) {
      FlattenSnoc(k.fed, ReadChunk(w, k, o.data));
    }
  }

  lemma OtherFalls(w: World, d: Disk, k: Worker, o: Outcome)
    requires k.Busy? && !k.pc.Compress? && (k.pc.Prepare? ==> k.pc.prepare != CreateGzTemp)
    ensures var k' := WorkStep(w, d, k, o).1; Rank(k') < Rank(k) && (k'.Idle? || k'.Busy?)
  {
    match k.pc
    case Prepare(p) => match p { case ClearGzTemp => case ClearMetaTemp => case ClearSkipTemp => }
    case Check(c) =>
    case Skip(p) => match p { case DropTemp => case DropGz => case DropMeta => case WriteSkip => case DropOldSkip => case RenameSkip => }
    case Publish(p) =>
      match p { case WriteMeta => case DropOldGz => case RenameGz => case DropOldMeta => case RenameMeta => case RetractGz => case RetractSkip => }
    case Abort(a) =>
  }

  lemma WorkFalls(w: World, d: Disk, k: Worker, o: Outcome)
    requires k.Busy? && (k.pc.Compress? ==> |Flatten(k.fed)| <= k.job.size)
    ensures var k' := WorkStep(w, d, k, o).1;
            Rank(k') <= Rank(k) && (IsTurn(k, Work(o)) ==> Rank(k') < Rank(k)) && (k'.Idle? || k'.Busy?)
  {
    if k.pc.Compress? {
      CompressFalls(w, d, k, o);
    } else if k.pc == Prepare(CreateGzTemp) {
      assert Flatten([]) == [];
    } else {
      OtherFalls(w, d, k, o);
    }
  }

  lemma RankPositive(w: World, d: Disk, k: Worker)
    requires WorkerBase(w, d, k) && k.Busy?
    ensures Rank(k) > 0
  {
    match k.pc
    case Prepare(p) => match p { case ClearGzTemp => case ClearMetaTemp => case ClearSkipTemp => case CreateGzTemp => }
    case Compress =>
    case Check(c) =>
    case Skip(p) => match p { case DropTemp => case DropGz => case DropMeta => case WriteSkip => case DropOldSkip => case RenameSkip => }
    case Publish(p) =>
      match p { case WriteMeta => case DropOldGz => case RenameGz => case DropOldMeta => case RenameMeta => case RetractGz => case RetractSkip => }
    case Abort(a) =>
  }

  lemma StepFalls(w: World, s: State, e: Event)
    requires WorkerBase(w, s.disk, s.worker) && (s.worker.Idle? || s.worker.Busy?) && !e.Begin? && !e.StartMaintenance?
    ensures var k' := Step(w, s, e).worker;
            && (k'.Idle? || (k'.Busy? && s.worker.Busy?))
            && (k'.Busy? ==> Rank(k') + (if IsTurn(s.worker, e) then 1 else 0) <= Rank(s.worker))
  {
    match e
    case Work(o) => if s.worker.Busy? { WorkFalls(w, s.disk, s.worker, o); }
    case Modify(_) =>
    case Evict(_, _) =>
    case EndMaintenance =>
    case Crash =>
    case Ask(_, _) =>
    case Advance(_) =>
  }

  lemma {:induction false} RankFalls(w: World, s: State, id: SourceId, events: seq<Event>)
    requires WellFormed(w) && s.worker.Idle? && id in w.content && BeginsNothing(events)
    ensures var s' := Run(w, Step(w, s, Begin(id)), events);
            && (s'.worker.Idle? || s'.worker.Busy?) && WorkerBase(w, s'.disk, s'.worker)
            && (s'.worker.Busy? ==> Rank(s'.worker) + WorkTurns(w, Step(w, s, Begin(id)), events) <= Operations(id))
    decreases |events|
  {
    var s0 := Step(w, s, Begin(id));
    if events != [] {
      var front, e := events[..|events| - 1], events[|events| - 1];
      RankFalls(w, s, id, front);
      var s1 := Run(w, s0, front);
      StepBase(w, s1, e);
      StepFalls(w, s1, e);
    }
  }

  /** Every job ends, whatever fails and however the source changes: once the worker has had as many turns
      as the source has bytes, and thirteen more, it is idle. */
  lemma EveryJobEnds(w: World, s: State, id: SourceId, events: seq<Event>)
    requires WellFormed(w) && s.worker.Idle? && id in w.content && BeginsNothing(events)
    requires WorkTurns(w, Step(w, s, Begin(id)), events) >= Operations(id)
    ensures Run(w, Step(w, s, Begin(id)), events).worker.Idle?
  {
    RankFalls(w, s, id, events);
    var s' := Run(w, Step(w, s, Begin(id)), events);
    if s'.worker.Busy? {
      RankPositive(w, s'.disk, s'.worker);
    }
  }

  /** So a job without faults does leave the pair or the skip marker; the marker, if no way of reading the
      source makes it worth keeping. */
  lemma FaultFreeJobEnds(w: World, s: State, id: SourceId, events: seq<Event>, s': State)
    requires WellFormed(w) && s.worker.Idle? && id in w.content && AllFaultFree(events)
    requires s' == Run(w, Step(w, s, Begin(id)), events) && WorkTurns(w, Step(w, s, Begin(id)), events) >= Operations(id)
    ensures s'.worker.Idle? && Over(w, s.disk, s'.disk, id)
    ensures (forall chunks :: IsReading(w, id, chunks) ==> !WorthKeeping(w, id, |Written(w, chunks)|)) ==>
              w.key(id) in s'.disk.skip && s'.disk.skip[w.key(id)] == w.skipMark(id)
    ensures (forall chunks :: IsReading(w, id, chunks) ==> WorthKeeping(w, id, |Written(w, chunks)|)) ==>
              w.key(id) in s'.disk.gz && w.key(id) in s'.disk.meta && s'.disk.meta[w.key(id)] == w.mark(id)
  {
    EveryJobEnds(w, s, id, events);
    FaultFreeJob(w, s, id, events, s');
  }

  /** The death of the process ends the job and all requests, and leaves the directory as it is. */
  lemma DeathLeavesDirectory(w: World, s: State)
    ensures var s' := Step(w, s, Crash); s'.disk == s.disk && s'.worker.Idle? && s'.lookups == map[]
  {
  }

  // ---------------------------------------------------------------- jobs given up

  /** The operations of a job that are not on published files. */
  predicate IsPrivate(pc: Pc) {
    match pc
    case Prepare(_) | Compress | Check(_) | Abort(_) => true
    case Skip(p) => p.DropTemp? || p.WriteSkip?
    case Publish(p) => p.WriteMeta?
  }

  lemma PreparePrivate(w: World, d: Disk, k: Worker, o: Outcome)
    requires k.Busy? && k.pc.Prepare?
    ensures var r := PrepareStep(w, d, k, k.pc.prepare, o); Same(d, r.0) && !r.1.Maintaining?
  {
    match k.pc.prepare
    case ClearGzTemp =>
    case ClearMetaTemp =>
    case ClearSkipTemp =>
    case CreateGzTemp =>
  }

  lemma CompressPrivate(w: World, d: Disk, k: Worker, o: Outcome)
    requires k.Busy?
    ensures var r := CompressStep(w, d, k, o); Same(d, r.0) && !r.1.Maintaining?
  {
  }

  lemma SkipPrivate(w: World, d: Disk, k: Worker, o: Outcome)
    requires k.Busy?
    ensures var r := SkipStep(w, d, k, DropTemp, o); Same(d, r.0) && !r.1.Maintaining?
    ensures var r := SkipStep(w, d, k, WriteSkip, o); Same(d, r.0) && !r.1.Maintaining?
  {
  }

  lemma AbortPrivate(w: World, d: Disk, k: Worker, o: Outcome)
    requires k.Busy? && k.pc.Abort?
    ensures var r := AbortStep(w, d, k, k.pc.abort, o); Same(d, r.0) && !r.1.Maintaining?
  {
    match k.pc.abort
    case LoseGzTemp =>
    case LoseBoth =>
    case LoseMetaTemp =>
    case LoseSkipTemp =>
  }

  lemma PrivateKeeps(w: World, d: Disk, k: Worker, o: Outcome)
    requires k.Busy? && IsPrivate(k.pc)
    ensures var r := WorkStep(w, d, k, o); Same(d, r.0) && !r.1.Maintaining?
  {
    match k.pc
    case Prepare(_) => PreparePrivate(w, d, k, o);
    case Compress => CompressPrivate(w, d, k, o);
    case Check(_) =>
    case Skip(_) => SkipPrivate(w, d, k, o);
    case Publish(_) =>
    case Abort(_) => AbortPrivate(w, d, k, o);
  }

  /** The worker never comes to an operation on published files, and does nothing but its job. */
  predicate StaysPrivate(w: World, s: State, events: seq<Event>)
    decreases |events|
  {
    events == [] ||
    (var front, e := events[..|events| - 1], events[|events| - 1];
     var k := Run(w, s, front).worker;
     StaysPrivate(w, s, front) && !e.StartMaintenance? && (e.Work? && k.Busy? ==> IsPrivate(k.pc)))
  }

  /** A job that is given up before it publishes anything, for whatever reason, has changed nothing that is
      published: the entries of its source and of all others are as they were. */
  lemma {:induction false} GivenUpChangesNothing(w: World, s: State, events: seq<Event>)
    requires !s.worker.Maintaining? && StaysPrivate(w, s, events)
    ensures var s' := Run(w, s, events); Same(s.disk, s'.disk) && !s'.worker.Maintaining?
    decreases |events|
  {
    if events != [] {
      var front, e := events[..|events| - 1], events[|events| - 1];
      GivenUpChangesNothing(w, s, front);
      var s1 := Run(w, s, front);
      if e.Work? && s1.worker.Busy? {
        PrivateKeeps(w, s1.disk, s1.worker, e.outcome);
      }
    }
  }

  // ---------------------------------------------------------------- requests

  /** Where a request is after so many operations on a directory that does not change. */
  function After(w: World, d: Disk, l: Lookup, n: nat): (r: Option<Lookup>) {
    if n == 0 then Some(l)
    else
      match After(w, d, l, n - 1)
      case None => None
      case Some(x) => LookupStep(w, d, x)
  }

  /** The pair of the source is in place. */
  predicate InPlace(w: World, d: Disk, id: SourceId) {
    && w.key(id) in d.meta && d.meta[w.key(id)] == w.mark(id)
    && w.key(id) in d.gz && |d.gz[w.key(id)]| >= 18
  }

  /** The skip marker of the source, for this budget, is in place. */
  predicate IsSkipped(w: World, d: Disk, id: SourceId) {
    w.key(id) in d.skip && d.skip[w.key(id)] == w.skipMark(id)
  }

  /** What a lookup comes to: the artifact if the pair is in place, else nothing if the skip marker is, else
      the wish for a job. */
  function Answer(w: World, d: Disk, id: SourceId): (r: Option<Lookup>) {
    if InPlace(w, d, id) then Some(Sending(id, |d.gz[w.key(id)]|, d.gz[w.key(id)]))
    else if IsSkipped(w, d, id) then None
    else Some(Wanting(id))
  }

  lemma SkipPart(w: World, d: Disk, l: Lookup, n: nat, id: SourceId)
    requires After(w, d, l, n) == Some(StatSkip(id))
    ensures After(w, d, l, n + 2) == if IsSkipped(w, d, id) then None else Some(Wanting(id))
  {
    assert After(w, d, l, n + 1) == LookupStep(w, d, StatSkip(id));
  }

  lemma {:induction false} AnswerStays(w: World, d: Disk, l: Lookup, n: nat, m: nat)
    requires n <= m && (After(w, d, l, n).None? || After(w, d, l, n).value.Sending? || After(w, d, l, n).value.Wanting?)
    ensures After(w, d, l, m) == After(w, d, l, n)
    decreases m
  {
    if n < m {
      AnswerStays(w, d, l, n, m - 1);
    }
  }

  lemma MetaPart(w: World, d: Disk, id: SourceId)
    ensures var key, l := w.key(id), StatMeta(id);
            if key in d.meta && d.meta[key] == w.mark(id) then After(w, d, l, 2) == Some(StatGz(id))
            else After(w, d, l, 1) == Some(StatSkip(id)) || After(w, d, l, 2) == Some(StatSkip(id))
  {
    assert After(w, d, StatMeta(id), 0) == Some(StatMeta(id));
    assert After(w, d, StatMeta(id), 1) == LookupStep(w, d, StatMeta(id));
  }

  lemma GzPart(w: World, d: Disk, l: Lookup, id: SourceId)
    requires After(w, d, l, 2) == Some(StatGz(id))
    ensures var key := w.key(id);
            if key in d.gz && |d.gz[key]| >= 18 then After(w, d, l, 5) == Some(Sending(id, |d.gz[key]|, d.gz[key]))
            else After(w, d, l, 3) == Some(StatSkip(id)) || After(w, d, l, 4) == Some(StatSkip(id))
  {
    assert After(w, d, l, 3) == LookupStep(w, d, StatGz(id));
    if w.key(id) in d.gz {
      assert After(w, d, l, 4) == LookupStep(w, d, SizeGz(id));
    }
  }

  /** A lookup comes to its answer in at most six operations. */
  lemma LookupExact(w: World, d: Disk, id: SourceId, n: nat)
    requires n >= 6
    ensures After(w, d, StatMeta(id), n) == Answer(w, d, id)
  {
    var l := StatMeta(id);
    MetaPart(w, d, id);
    if After(w, d, l, 2) == Some(StatGz(id)) {
      GzPart(w, d, l, id);
    }
    if InPlace(w, d, id) {
      AnswerStays(w, d, l, 5, n);
    } else {
      var m := if After(w, d, l, 1) == Some(StatSkip(id)) then 1 else if After(w, d, l, 2) == Some(StatSkip(id)) then 2
               else if After(w, d, l, 3) == Some(StatSkip(id)) then 3 else 4;
      SkipPart(w, d, l, m, id);
      AnswerStays(w, d, l, m + 2, n);
    }
  }

  /** How often the thread gets its turn. */
  function Turns(events: seq<Event>, thread: nat): (n: nat) {
    if events == [] then 0
    else Turns(events[..|events| - 1], thread) + (if events[|events| - 1] == Advance(thread) then 1 else 0)
  }

  /** Requests only, and none that reuses the thread. */
  predicate Quiet(events: seq<Event>, thread: nat) {
    AllFaultFree(events) && forall i :: 0 <= i < |events| ==> !(events[i].Ask? && events[i].thread == thread)
  }

  predicate ThreadAt(s: State, thread: nat, r: Option<Lookup>) {
    match r
    case None => thread !in s.lookups
    case Some(l) => thread in s.lookups && s.lookups[thread] == l
  }

  lemma LookOn(w: World, s: State, thread: nat, r: Option<Lookup>, e: Event)
    requires s.worker.Idle? && ThreadAt(s, thread, r) && FaultFree(e) && !(e.Ask? && e.thread == thread)
    ensures var s' := Step(w, s, e);
            && s'.worker.Idle? && s'.disk == s.disk
            && ThreadAt(s', thread, if e == Advance(thread) && r.Some? then LookupStep(w, s.disk, r.value) else r)
  {
    match e
    case Work(_) =>
    case Ask(_, _) =>
    case Advance(_) =>
    case Evict(_, _) =>
    case EndMaintenance =>
  }

  lemma {:induction false} QuietRun(w: World, s: State, l: Lookup, thread: nat, events: seq<Event>)
    requires s.worker.Idle? && ThreadAt(s, thread, Some(l)) && Quiet(events, thread)
    ensures var s' := Run(w, s, events);
            s'.worker.Idle? && s'.disk == s.disk && ThreadAt(s', thread, After(w, s.disk, l, Turns(events, thread)))
    decreases |events|
  {
    if events != [] {
      var front := events[..|events| - 1];
      QuietRun(w, s, l, thread, front);
      LookOn(w, Run(w, s, front), thread, After(w, s.disk, l, Turns(front, thread)), events[|events| - 1]);
    }
  }

  /** While the worker is idle, every request comes to the answer that the directory gives once its thread
      has had six turns, whatever other requests do. */
  lemma RequestIsAnswered(w: World, s: State, id: SourceId, thread: nat, events: seq<Event>)
    requires s.worker.Idle? && thread !in s.lookups && id in w.content && Quiet(events, thread) && Turns(events, thread) >= 6
    ensures var s' := Run(w, Step(w, s, Ask(thread, id)), events);
            s'.disk == s.disk && ThreadAt(s', thread, Answer(w, s.disk, id))
  {
    var s0 := Step(w, s, Ask(thread, id));
    QuietRun(w, s0, StatMeta(id), thread, events);
    LookupExact(w, s.disk, id, Turns(events, thread));
  }

  lemma KeptIsInPlace(w: World, d: Disk, d': Disk, id: SourceId)
    requires WellFormed(w) && Over(w, d, d', id)
    ensures w.key(id) in d'.gz ==> InPlace(w, d', id) && Holds(w, id, d'.gz[w.key(id)])
    ensures w.key(id) !in d'.gz ==> IsSkipped(w, d', id)
  {
    var chunks :| IsReading(w, id, chunks) && Finished(w, d, d', id, Written(w, chunks));
    WrittenReadsBack(w, chunks);
  }

  /** Once a job without faults is over, every request for its source is answered: from the pair, which
      decompresses to the source, if the job kept it, and otherwise without asking for the job again. */
  lemma PublishedIsServed(w: World, s: State, id: SourceId, job: seq<Event>, s1: State,
                          thread: nat, events: seq<Event>, s2: State)
    requires WellFormed(w) && s.worker.Idle? && id in w.content && AllFaultFree(job)
    requires s1 == Run(w, Step(w, s, Begin(id)), job) && s1.worker.Idle? && thread !in s1.lookups
    requires Quiet(events, thread) && s2 == Run(w, Step(w, s1, Ask(thread, id)), events) && Turns(events, thread) >= 6
    ensures var key := w.key(id);
            if key in s1.disk.gz
            then ThreadAt(s2, thread, Some(Sending(id, |s1.disk.gz[key]|, s1.disk.gz[key]))) && Holds(w, id, s1.disk.gz[key])
            else thread !in s2.lookups
  {
    FaultFreeJob(w, s, id, job, s1);
    KeptIsInPlace(w, s.disk, s1.disk, id);
    RequestIsAnswered(w, s1, id, thread, events);
  }

  // ---------------------------------------------------------------- sources that change back

  /** The thread has opened these bytes for the source. */
  predicate ServesFor(s: State, thread: nat, id: SourceId, data: Bytes) {
    thread in s.lookups && s.lookups[thread] == Sending(id, |data|, data)
  }

  /** Some run leads from one state to the other. */
  ghost predicate Reaches(w: World, s: State, s': State) {
    exists events :: Run(w, s, events) == s'
  }

  lemma ReachesItself(w: World, s: State)
    ensures Reaches(w, s, s)
  {
    assert Run(w, s, []) == s;
  }

  lemma ReachesNext(w: World, s: State, s': State, e: Event)
    requires Reaches(w, s, s')
    ensures Reaches(w, s, Step(w, s', e))
  {
    var events :| Run(w, s, events) == s';
    assert (events + [e])[..|events|] == events;
    assert Run(w, s, events + [e]) == Step(w, s', e);
  }

  const GOOD := Outcome(true, true, [], [], "")

  /** One operation of the worker that succeeds. */
  lemma Works(w: World, s: State, s': State, o: Outcome, d: Disk, k: Worker)
    requires Reaches(w, s, s') && s'.worker.Busy? && WorkStep(w, s'.disk, s'.worker, o) == (d, k)
    ensures Reaches(w, s, s'.(disk := d, worker := k))
  {
    ReachesNext(w, s, s', Work(o));
  }

  lemma WorksAt(w: World, s: State, s1: State, d: Disk, k: Worker) returns (s': State)
    requires Reaches(w, s, s1) && s1.worker.Busy? && WorkStep(w, s1.disk, s1.worker, GOOD) == (d, k)
    ensures Reaches(w, s, s') && s' == s1.(disk := d, worker := k)
  {
    Works(w, s, s1, GOOD, d, k);
    s' := s1.(disk := d, worker := k);
  }

  /** A worker in its loop with an intact stream. */
  predicate Reading(w: World, s: State) {
    s.worker.Busy? && s.worker.pc.Compress? && s.worker.ok && s.worker.job in w.content && StreamOk(w, s.disk, s.worker)
  }

  /** The chunks can be what the next reads return: anything at all from a changed file. */
  predicate CanRead(w: World, k: Worker, chunks: seq<Bytes>)
    requires k.Busy?
  {
    && k.job in w.content && |w.content[k.job]| == k.job.size
    && Sized(chunks) && |Flatten(k.fed)| + |Flatten(chunks)| <= k.job.size
    && (k.fd == k.job ==> Flatten(chunks) == w.content[k.job][|Flatten(k.fed)|..|Flatten(k.fed)| + |Flatten(chunks)|])
  }

  lemma {:induction false} FlattenAppend(a: seq<Bytes>, b: seq<Bytes>)
    ensures Flatten(a + b) == Flatten(a) + Flatten(b)
    decreases |b|
  {
    if b == [] {
      assert a + b == a;
    } else {
      var front, last := b[..|b| - 1], b[|b| - 1];
      assert a + b == (a + front) + [last];
      FlattenSnoc(a + front, last);
      FlattenAppend(a, front);
    }
  }

  /** A piece of a text and what follows it. */
  lemma Pieces(content: Bytes, at: nat, first: Bytes, rest: Bytes)
    requires at + |first + rest| <= |content| && first + rest == content[at..at + |first + rest|]
    ensures first == content[at..at + |first|] && rest == content[at + |first|..at + |first| + |rest|]
  {
    assert content[at..at + |first|] == (first + rest)[..|first|];
    assert content[at + |first|..at + |first| + |rest|] == (first + rest)[|first|..];
  }

  lemma FlattenFirst(chunks: seq<Bytes>)
    requires chunks != []
    ensures Flatten(chunks) == chunks[0] + Flatten(chunks[1..])
  {
    assert chunks == [chunks[0]] + chunks[1..];
    FlattenAppend([chunks[0]], chunks[1..]);
    FlattenSnoc([], chunks[0]);
  }

  lemma CanReadFirst(w: World, k: Worker, chunks: seq<Bytes>, crc: nat)
    requires k.Busy? && chunks != [] && CanRead(w, k, chunks)
    ensures ReadChunk(w, k, chunks[0]) == chunks[0] && |Flatten(k.fed)| + |chunks[0]| <= k.job.size
    ensures CanRead(w, k.(fed := k.fed + [chunks[0]], crc := crc), chunks[1..])
  {
    FlattenFirst(chunks);
    FlattenSnoc(k.fed, chunks[0]);
    if k.fd == k.job {
      Pieces(w.content[k.job], |Flatten(k.fed)|, chunks[0], Flatten(chunks[1..]));
    }
  }

  lemma Feeds(w: World, s: State, s1: State, chunk: Bytes) returns (s': State)
    requires Lawful(w.codec) && Reaches(w, s, s1) && Reading(w, s1)
    requires 0 < |chunk| <= CHUNK && |Flatten(s1.worker.fed)| + |chunk| <= s1.worker.job.size
    requires ReadChunk(w, s1.worker, chunk) == chunk
    ensures Reaches(w, s, s') && Reading(w, s') && s'.lookups == s1.lookups && Same(s1.disk, s'.disk)
    ensures s'.worker == s1.worker.(fed := s1.worker.fed + [chunk], crc := w.codec.crc(s1.worker.crc, chunk))
  {
    var k := s1.worker;
    var file := At(s1.disk.gzTemp, w.key(k.job));
    ReadsOne(w, s1.disk, k, GOOD.(data := chunk));
    EncoderFeed(w.codec, k.fed, k.crc, file, chunk);
    FlattenSnoc(k.fed, chunk);
    var r := CompressStep(w, s1.disk, k, GOOD.(data := chunk));
    Works(w, s, s1, GOOD.(data := chunk), r.0, r.1);
    s' := s1.(disk := r.0, worker := r.1);
  }

  lemma ReadsFirst(w: World, s: State, s1: State, chunks: seq<Bytes>) returns (s': State)
    requires Lawful(w.codec) && Reaches(w, s, s1) && Reading(w, s1) && chunks != [] && CanRead(w, s1.worker, chunks)
    ensures Reaches(w, s, s') && Reading(w, s') && s'.lookups == s1.lookups && Same(s1.disk, s'.disk)
    ensures s'.worker == s1.worker.(fed := s1.worker.fed + [chunks[0]], crc := s'.worker.crc)
    ensures CanRead(w, s'.worker, chunks[1..])
  {
    CanReadFirst(w, s1.worker, chunks, w.codec.crc(s1.worker.crc, chunks[0]));
    s' := Feeds(w, s, s1, chunks[0]);
  }

  lemma {:induction false} Reads(w: World, s: State, s1: State, chunks: seq<Bytes>) returns (s': State)
    requires Lawful(w.codec) && Reaches(w, s, s1) && Reading(w, s1) && CanRead(w, s1.worker, chunks)
    ensures Reaches(w, s, s') && Reading(w, s') && s'.lookups == s1.lookups && Same(s1.disk, s'.disk)
    ensures s'.worker == s1.worker.(fed := s1.worker.fed + chunks, crc := s'.worker.crc)
    decreases |chunks|
  {
    AppendFirst(s1.worker.fed, chunks);
    if chunks == [] {
      s' := s1;
    } else {
      s' := ReadsFirst(w, s, s1, chunks);
      s' := Reads(w, s, s', chunks[1..]);
    }
  }

  lemma AppendFirst(fed: seq<Bytes>, chunks: seq<Bytes>)
    ensures if chunks == [] then fed + chunks == fed else fed + [chunks[0]] + chunks[1..] == fed + chunks
  {
  }

  /** A worker that has read all it wants from a file that now is its job's version passes the inspection,
      and what it publishes is what it read. */
  lemma Inspects(w: World, s: State, s1: State) returns (s': State)
    requires Reaches(w, s, s1) && Reading(w, s1) && s1.worker.fd == s1.worker.job
    requires |Flatten(s1.worker.fed)| == s1.worker.job.size && WorthKeeping(w, s1.worker.job, |Written(w, s1.worker.fed)|)
    ensures Reaches(w, s, s') && s'.lookups == s1.lookups
    ensures s'.worker == s1.worker.(pc := Publish(WriteMeta)) && HasTemp(w, s'.disk, s1.worker.job, Written(w, s1.worker.fed))
  {
    var k, key := s1.worker, w.key(s1.worker.job);
    var data := Written(w, k.fed);
    StreamCompletes(w, k.fed, k.crc, At(s1.disk.gzTemp, key));
    var d := s1.disk.(gzTemp := s1.disk.gzTemp[key := data]);
    s' := WorksAt(w, s, s1, d, k.(pc := Check(Recheck)));
    s' := WorksAt(w, s, s', d, k.(pc := Check(Measure)));
    s' := WorksAt(w, s, s', d, k.(pc := Publish(WriteMeta)));
  }

  lemma PublishesGz(w: World, s: State, s1: State, data: Bytes) returns (s': State)
    requires Reaches(w, s, s1) && s1.worker.Busy? && s1.worker.pc == Publish(WriteMeta)
    requires w.key(s1.worker.job) in s1.disk.gzTemp && s1.disk.gzTemp[w.key(s1.worker.job)] == data
    ensures Reaches(w, s, s')
    ensures var key := w.key(s1.worker.job);
            s' == s1.(worker := s1.worker.(pc := Publish(DropOldMeta)),
                      disk := s1.disk.(gz := s1.disk.gz[key := data], gzTemp := s1.disk.gzTemp - {key},
                                       metaTemp := s1.disk.metaTemp[key := w.mark(s1.worker.job)]))
  {
    var key := w.key(s1.worker.job);
    var d, k := s1.disk.(metaTemp := s1.disk.metaTemp[key := w.mark(s1.worker.job)]), s1.worker;
    s' := WorksAt(w, s, s1, d, k.(pc := Publish(DropOldGz)));
    d := d.(gz := d.gz - {key});
    s' := WorksAt(w, s, s', d, k.(pc := Publish(RenameGz)));
    d := d.(gz := s1.disk.gz[key := data], gzTemp := d.gzTemp - {key});
    assert s'.disk.gz[key := data] == d.gz;
    s' := WorksAt(w, s, s', d, k.(pc := Publish(DropOldMeta)));
  }

  lemma Publishes(w: World, s: State, s1: State, data: Bytes) returns (s': State)
    requires Reaches(w, s, s1) && s1.worker.Busy? && s1.worker.pc == Publish(WriteMeta)
    requires w.key(s1.worker.job) in s1.disk.gzTemp && s1.disk.gzTemp[w.key(s1.worker.job)] == data
    ensures Reaches(w, s, s') && s'.lookups == s1.lookups && s'.worker == Idle
    ensures var key := w.key(s1.worker.job);
            && s'.disk.gz == s1.disk.gz[key := data]
            && s'.disk.meta == s1.disk.meta[key := w.mark(s1.worker.job)]
            && s'.disk.skip == s1.disk.skip - {key}
  {
    var key := w.key(s1.worker.job);
    s' := PublishesGz(w, s, s1, data);
    var d, k := s'.disk, s'.worker;
    d := d.(meta := d.meta - {key});
    s' := WorksAt(w, s, s', d, k.(pc := Publish(RenameMeta)));
    d := d.(meta := s1.disk.meta[key := w.mark(k.job)], metaTemp := d.metaTemp - {key});
    assert s'.disk.meta[key := w.mark(k.job)] == d.meta;
    s' := WorksAt(w, s, s', d, k.(pc := Publish(RetractSkip)));
    s' := WorksAt(w, s, s', d.(skip := d.skip - {key}), Idle);
  }

  /** One operation of a request thread. */
  lemma Looks(w: World, s: State, s1: State, thread: nat, l: Lookup) returns (s': State)
    requires Reaches(w, s, s1) && thread in s1.lookups && LookupStep(w, s1.disk, s1.lookups[thread]) == Some(l)
    ensures Reaches(w, s, s') && s' == s1.(lookups := s1.lookups[thread := l])
  {
    ReachesNext(w, s, s1, Advance(thread));
    s' := Step(w, s1, Advance(thread));
  }

  lemma Serves(w: World, s: State, s1: State, id: SourceId, thread: nat, data: Bytes) returns (s': State)
    requires Reaches(w, s, s1) && id in w.content && thread !in s1.lookups && |data| >= 18
    requires w.key(id) in s1.disk.gz && s1.disk.gz[w.key(id)] == data
    requires w.key(id) in s1.disk.meta && s1.disk.meta[w.key(id)] == w.mark(id)
    ensures Reaches(w, s, s') && thread in s'.lookups && s'.lookups[thread] == Sending(id, |data|, data)
  {
    ReachesNext(w, s, s1, Ask(thread, id));
    s' := Step(w, s1, Ask(thread, id));
    s' := Looks(w, s, s', thread, ReadMeta(id));
    s' := Looks(w, s, s', thread, StatGz(id));
    s' := Looks(w, s, s', thread, SizeGz(id));
    s' := Looks(w, s, s', thread, Hit(id, |data|));
    s' := Looks(w, s, s', thread, Sending(id, |data|, data));
  }

  /** What a worker whose file has its job's identity again leads to: whatever it has read, if the result
      is worth keeping some run goes on to serve it, and it is the source's content if and only if the
      bytes read are. */
  lemma ReadIsServed(w: World, s: State, more: seq<Bytes>, thread: nat) returns (s': State)
    requires WellFormed(w) && Reading(w, s) && s.worker.fd == s.worker.job && CanRead(w, s.worker, more)
    requires |Flatten(s.worker.fed + more)| == s.worker.job.size && thread !in s.lookups
    requires WorthKeeping(w, s.worker.job, |Written(w, s.worker.fed + more)|)
    ensures Reaches(w, s, s') && thread in s'.lookups
    ensures ServesFor(s', thread, s.worker.job, Written(w, s.worker.fed + more))
    ensures Holds(w, s.worker.job, Written(w, s.worker.fed + more)) <==> Flatten(s.worker.fed + more) == w.content[s.worker.job]
  {
    var id, data := s.worker.job, Written(w, s.worker.fed + more);
    WrittenReadsBack(w, s.worker.fed + more);
    ReachesItself(w, s);
    s' := Reads(w, s, s, more);
    s' := Inspects(w, s, s');
    s' := Publishes(w, s, s', data);
    s' := Serves(w, s, s', id, thread, data);
  }

  /** So a false return is not harmless: whenever one happens to a worker with an intact stream, and the
      rest can be read so that the result is worth keeping, some run serves content that is not the
      source's. `ServedContentIsSource` cannot do without its condition on the run. */
  lemma FalseReturnIsServed(w: World, s: State, more: seq<Bytes>, thread: nat) returns (s': State)
    requires WellFormed(w) && Reading(w, s) && FalseReturn(w, s, Modify(s.worker.job)) && thread !in s.lookups
    requires CanRead(w, s.worker.(fd := s.worker.job), more)
    requires |Flatten(s.worker.fed + more)| == s.worker.job.size
    requires WorthKeeping(w, s.worker.job, |Written(w, s.worker.fed + more)|)
    ensures Reaches(w, s, s') && thread in s'.lookups
    ensures ServesFor(s', thread, s.worker.job, Written(w, s.worker.fed + more))
    ensures w.gunzip(Written(w, s.worker.fed + more)) == Some(Flatten(s.worker.fed + more)) != Some(w.content[s.worker.job])
  {
    var s1 := Step(w, s, Modify(s.worker.job));
    assert StreamOk(w, s1.disk, s1.worker);
    s' := ReadIsServed(w, s1, more, thread);
    FlattenAppend(s.worker.fed, more);
    assert Flatten(s.worker.fed + more)[..|Flatten(s.worker.fed)|] == Flatten(s.worker.fed);
    WrittenReadsBack(w, s.worker.fed + more);
    ReachesItself(w, s);
    ReachesNext(w, s, s, Modify(s.worker.job));
    ReachesTwice(w, s, s1, s');
  }

  lemma Prepares(w: World, s: State, id: SourceId) returns (s': State)
    requires Lawful(w.codec) && s.worker.Idle? && id in w.content
    ensures Reaches(w, s, s') && s'.lookups == s.lookups && Same(s.disk, s'.disk)
    ensures Reading(w, s') && s'.worker == Busy(id, Compress, id, [], 0, true)
  {
    var key := w.key(id);
    ReachesItself(w, s);
    ReachesNext(w, s, s, Begin(id));
    s' := Step(w, s, Begin(id));
    var d, k := s.disk, s'.worker;
    d := d.(gzTemp := d.gzTemp - {key});
    s' := WorksAt(w, s, s', d, k.(pc := Prepare(ClearMetaTemp)));
    d := d.(metaTemp := d.metaTemp - {key});
    s' := WorksAt(w, s, s', d, k.(pc := Prepare(ClearSkipTemp)));
    d := d.(skipTemp := d.skipTemp - {key});
    s' := WorksAt(w, s, s', d, k.(pc := Prepare(CreateGzTemp)));
    d := d.(gzTemp := d.gzTemp[key := HEADER]);
    s' := WorksAt(w, s, s', d, k.(pc := Compress));
    EncoderStart(w.codec);
    assert StreamOk(w, s'.disk, s'.worker);
  }

  /** The source changes before it is read and back before it is inspected. */
  lemma Detours(w: World, s: State, id: SourceId, other: SourceId, chunks: seq<Bytes>) returns (s': State)
    requires Lawful(w.codec) && s.worker.Idle? && id in w.content && |w.content[id]| == id.size && other != id
    requires Sized(chunks) && |Flatten(chunks)| == id.size
    ensures Reaches(w, s, s') && s'.lookups == s.lookups && Reading(w, s')
    ensures s'.worker == Busy(id, Compress, id, chunks, s'.worker.crc, true)
  {
    s' := Prepares(w, s, id);
    ReachesNext(w, s, s', Modify(other));
    s' := Step(w, s', Modify(other));
    assert StreamOk(w, s'.disk, s'.worker);
    s' := Reads(w, s, s', chunks);
    assert [] + chunks == chunks;
    ReachesNext(w, s, s', Modify(id));
    s' := Step(w, s', Modify(id));
    assert StreamOk(w, s'.disk, s'.worker);
  }

  /** From any idle worker, for any source and any bytes of its length that a read of another version
      could return: a run in which the source changes to that version before it is read and back before it
      is inspected serves those bytes, compressed, for the source. */
  lemma RestoredSourceIsServed(w: World, s: State, id: SourceId, other: SourceId, chunks: seq<Bytes>, thread: nat)
    returns (s': State)
    requires WellFormed(w) && s.worker.Idle? && id in w.content && other != id && thread !in s.lookups
    requires Sized(chunks) && |Flatten(chunks)| == id.size && WorthKeeping(w, id, |Written(w, chunks)|)
    ensures Reaches(w, s, s') && thread in s'.lookups && s'.lookups[thread] == Sending(id, |Written(w, chunks)|, Written(w, chunks))
    ensures Holds(w, id, Written(w, chunks)) <==> Flatten(chunks) == w.content[id]
  {
    var s1 := Detours(w, s, id, other, chunks);
    assert chunks + [] == chunks;
    s' := ReadIsServed(w, s1, [], thread);
    ReachesTwice(w, s, s1, s');
  }

  lemma ReachesTwice(w: World, s: State, s1: State, s2: State)
    requires Reaches(w, s, s1) && Reaches(w, s1, s2)
    ensures Reaches(w, s, s2)
  {
    var a :| Run(w, s, a) == s1;
    var b :| Run(w, s1, b) == s2;
    RunAppend(w, s, a, b);
    assert Run(w, s, a + b) == s2;
  }

  lemma {:induction false} RunAppend(w: World, s: State, a: seq<Event>, b: seq<Event>)
    ensures Run(w, s, a + b) == Run(w, Run(w, s, a), b)
    decreases |b|
  {
    if b == [] {
      assert a + b == a;
    } else {
      assert (a + b)[..|a + b| - 1] == a + b[..|b| - 1];
      RunAppend(w, s, a, b[..|b| - 1]);
    }
  }
}
