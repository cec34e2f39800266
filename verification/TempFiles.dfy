/** The temporary files of the publish protocol of the gzip cache: which of them are there at each point of a
    job, and that a job leaves none behind. */
module TempFiles {
  import opened Basics
  import opened Gzip
  import opened Identity
  import opened PublishProtocol
  import opened PublishProgress

  /** Whether a file is there at some point of a job. */
  datatype Presence = There | Gone | Either

  predicate Fits(p: Presence, there: bool) { (p.There? ==> there) && (p.Gone? ==> !there) }

  function GzTempAt(pc: Pc): (p: Presence) {
    match pc
    case Prepare(p) => if p.ClearGzTemp? then Either else Gone
    case Compress | Check(_) => There
    case Skip(p) => if p.DropTemp? then There else Gone
    case Publish(p) => if p.WriteMeta? || p.DropOldGz? || p.RenameGz? then There else Gone
    case Abort(a) => if a.LoseGzTemp? || a.LoseBoth? then Either else Gone
  }

  function MetaTempAt(pc: Pc): (p: Presence) {
    match pc
    case Prepare(p) => if p.ClearGzTemp? || p.ClearMetaTemp? then Either else Gone
    case Compress | Check(_) | Skip(_) => Gone
    case Publish(p) => if p.WriteMeta? || p.RetractSkip? || p.RetractGz? then Gone else There
    case Abort(a) => if a.LoseBoth? || a.LoseMetaTemp? then Either else Gone
  }

  function SkipTempAt(pc: Pc): (p: Presence) {
    match pc
    case Prepare(p) => if p.CreateGzTemp? then Gone else Either
    case Skip(p) => if p.DropOldSkip? || p.RenameSkip? then There else Gone
    case Compress | Check(_) | Publish(_) => Gone
    case Abort(a) => if a.LoseSkipTemp? then Either else Gone
  }

  predicate SameBut<V(==)>(key: Key, files: map<Key, V>, files': map<Key, V>) {
    && (forall other :: other in files && other != key ==> other in files' && files'[other] == files[other])
    && (forall other :: other in files' && other != key ==> other in files)
  }

  /** The temporary files of other jobs are as they were. */
  predicate OthersSame(key: Key, d: Disk, d': Disk) {
    SameBut(key, d.gzTemp, d'.gzTemp) && SameBut(key, d.metaTemp, d'.metaTemp) && SameBut(key, d.skipTemp, d'.skipTemp)
  }

  predicate NoTemps(key: Key, d: Disk) { key !in d.gzTemp && key !in d.metaTemp && key !in d.skipTemp }

  predicate TempsAt(w: World, id: SourceId, d: Disk, k: Worker) {
    var key := w.key(id);
    match k
    case Idle => NoTemps(key, d)
    case Busy(job, pc, _, _, _, _) =>
      && job == id && pc != Publish(RetractGz)
      && Fits(GzTempAt(pc), key in d.gzTemp) && Fits(MetaTempAt(pc), key in d.metaTemp) && Fits(SkipTempAt(pc), key in d.skipTemp)
    case Maintaining => false
  }

  /** What may fail without leaving a temporary file behind: creating, reading, writing and inspecting. */
  predicate MayFail(pc: Pc) {
    pc == Prepare(CreateGzTemp) || pc == Compress || pc == Check(Recheck) || pc == Skip(WriteSkip) || pc == Publish(WriteMeta)
  }

  /** The worker is not killed, and its removals, renames and the measuring succeed. */
  predicate Tidy(k: Worker, e: Event) {
    !e.Begin? && !e.StartMaintenance? && !e.Crash? && (e.Work? && k.Busy? && !MayFail(k.pc) ==> e.outcome.succeeds)
  }

  lemma PrepareTidy(w: World, id: SourceId, d: Disk, k: Worker, o: Outcome)
    requires k.Busy? && k.pc.Prepare? && TempsAt(w, id, d, k) && Tidy(k, Work(o))
    ensures var r := PrepareStep(w, d, k, k.pc.prepare, o); TempsAt(w, id, r.0, r.1)
  {
    if k.pc.prepare.CreateGzTemp? {
      CreateTidy(w, id, d, k, o);
    } else {
      ClearTidy(w, id, d, k, o);
    }
  }

  lemma CreateTidy(w: World, id: SourceId, d: Disk, k: Worker, o: Outcome)
    requires k.Busy? && k.pc == Prepare(CreateGzTemp) && TempsAt(w, id, d, k)
    ensures var r := PrepareStep(w, d, k, CreateGzTemp, o); TempsAt(w, id, r.0, r.1)
  {
  }

  lemma ClearTidy(w: World, id: SourceId, d: Disk, k: Worker, o: Outcome)
    requires k.Busy? && k.pc.Prepare? && !k.pc.prepare.CreateGzTemp? && TempsAt(w, id, d, k) && o.succeeds
    ensures var r := PrepareStep(w, d, k, k.pc.prepare, o); TempsAt(w, id, r.0, r.1)
  {
    match k.pc.prepare
    case ClearGzTemp =>
    case ClearMetaTemp =>
    case ClearSkipTemp =>
  }

  lemma CompressTidy(w: World, id: SourceId, d: Disk, k: Worker, o: Outcome)
    requires k.Busy? && k.pc.Compress? && TempsAt(w, id, d, k)
    ensures var r := CompressStep(w, d, k, o); TempsAt(w, id, r.0, r.1)
  {
  }

  lemma SkipDropsTidy(w: World, id: SourceId, d: Disk, k: Worker, o: Outcome)
    requires k.Busy? && k.pc.Skip? && TempsAt(w, id, d, k) && Tidy(k, Work(o))
    requires k.pc.skip.DropTemp? || k.pc.skip.DropGz? || k.pc.skip.DropMeta?
    ensures var r := SkipStep(w, d, k, k.pc.skip, o); TempsAt(w, id, r.0, r.1)
  {
    match k.pc.skip
    case DropTemp =>
    case DropGz =>
    case DropMeta =>
  }

  lemma SkipMarksTidy(w: World, id: SourceId, d: Disk, k: Worker, o: Outcome)
    requires k.Busy? && k.pc.Skip? && TempsAt(w, id, d, k) && Tidy(k, Work(o))
    requires k.pc.skip.WriteSkip? || k.pc.skip.DropOldSkip? || k.pc.skip.RenameSkip?
    ensures var r := SkipStep(w, d, k, k.pc.skip, o); TempsAt(w, id, r.0, r.1)
  {
    match k.pc.skip
    case WriteSkip =>
    case DropOldSkip =>
    case RenameSkip =>
  }

  lemma PublishTidy(w: World, id: SourceId, d: Disk, k: Worker, o: Outcome)
    requires k.Busy? && k.pc.Publish? && TempsAt(w, id, d, k) && Tidy(k, Work(o))
    ensures var r := PublishStep(w, d, k, k.pc.publish, o); TempsAt(w, id, r.0, r.1)
  {
    match k.pc.publish
    case WriteMeta =>
    case DropOldGz =>
    case RenameGz =>
    case DropOldMeta =>
    case RenameMeta =>
    case RetractSkip =>
  }

  lemma AbortTidy(w: World, id: SourceId, d: Disk, k: Worker, o: Outcome)
    requires k.Busy? && k.pc.Abort? && TempsAt(w, id, d, k) && Tidy(k, Work(o))
    ensures var r := AbortStep(w, d, k, k.pc.abort, o); TempsAt(w, id, r.0, r.1)
  {
    match k.pc.abort
    case LoseGzTemp =>
    case LoseBoth =>
    case LoseMetaTemp =>
    case LoseSkipTemp =>
  }

  lemma StepTidy(w: World, id: SourceId, s: State, e: Event)
    requires TempsAt(w, id, s.disk, s.worker) && Tidy(s.worker, e)
    ensures var s' := Step(w, s, e); TempsAt(w, id, s'.disk, s'.worker)
  {
    match e
    case Work(o) =>
      if s.worker.Busy? {
        match s.worker.pc {
          case Prepare(_) => PrepareTidy(w, id, s.disk, s.worker, o);
          case Compress => CompressTidy(w, id, s.disk, s.worker, o);
          case Check(_) =>
          case Skip(p) =>
            if p.DropTemp? || p.DropGz? || p.DropMeta? {
              SkipDropsTidy(w, id, s.disk, s.worker, o);
            } else {
              SkipMarksTidy(w, id, s.disk, s.worker, o);
            }
          case Publish(_) => PublishTidy(w, id, s.disk, s.worker, o);
          case Abort(_) => AbortTidy(w, id, s.disk, s.worker, o);
        }
      }
    case Modify(_) =>
    case Evict(_, _) =>
    case EndMaintenance =>
    case Ask(_, _) =>
    case Advance(_) =>
  }

  lemma Touch<V>(key: Key, files: map<Key, V>, value: V, succeeds: bool)
    ensures SameBut(key, files, files) && SameBut(key, files, files[key := value])
    ensures SameBut(key, files, files - {key}) && SameBut(key, files, Remove(files, key, succeeds))
  {
  }

  lemma TouchGz(key: Key, d: Disk, data: Bytes, succeeds: bool)
    ensures OthersSame(key, d, d) && OthersSame(key, d, d.(gzTemp := d.gzTemp[key := data]))
    ensures OthersSame(key, d, d.(gzTemp := Remove(d.gzTemp, key, succeeds)))
  {
    Touch(key, d.gzTemp, data, succeeds);
    Touch(key, d.metaTemp, [], succeeds);
    Touch(key, d.skipTemp, [], succeeds);
  }

  lemma TouchMeta(key: Key, d: Disk, text: string, succeeds: bool)
    ensures OthersSame(key, d, d.(metaTemp := d.metaTemp[key := text]))
    ensures OthersSame(key, d, d.(metaTemp := Remove(d.metaTemp, key, succeeds)))
  {
    Touch(key, d.gzTemp, [], succeeds);
    Touch(key, d.metaTemp, text, succeeds);
    Touch(key, d.skipTemp, [], succeeds);
  }

  lemma TouchSkip(key: Key, d: Disk, text: string, succeeds: bool)
    ensures OthersSame(key, d, d.(skipTemp := d.skipTemp[key := text]))
    ensures OthersSame(key, d, d.(skipTemp := Remove(d.skipTemp, key, succeeds)))
  {
    Touch(key, d.gzTemp, [], succeeds);
    Touch(key, d.metaTemp, [], succeeds);
    Touch(key, d.skipTemp, text, succeeds);
  }

  /** The renames, and the operations on what is published. */
  lemma TouchPublished(key: Key, d: Disk, d': Disk)
    requires d'.gzTemp == d.gzTemp || d'.gzTemp == d.gzTemp - {key}
    requires d'.metaTemp == d.metaTemp || d'.metaTemp == d.metaTemp - {key}
    requires d'.skipTemp == d.skipTemp || d'.skipTemp == d.skipTemp - {key}
    ensures OthersSame(key, d, d')
  {
    Touch(key, d.gzTemp, [], true);
    Touch(key, d.metaTemp, [], true);
    Touch(key, d.skipTemp, [], true);
  }

  lemma PrepareTouches(w: World, d: Disk, k: Worker, o: Outcome)
    requires k.Busy? && k.pc.Prepare?
    ensures OthersSame(w.key(k.job), d, PrepareStep(w, d, k, k.pc.prepare, o).0)
  {
    match k.pc.prepare
    case ClearGzTemp => TouchGz(w.key(k.job), d, [], o.succeeds);
    case ClearMetaTemp => TouchMeta(w.key(k.job), d, [], o.succeeds);
    case ClearSkipTemp => TouchSkip(w.key(k.job), d, [], o.succeeds);
    case CreateGzTemp => TouchGz(w.key(k.job), d, if o.writes then HEADER else o.torn, o.succeeds);
  }

  lemma CompressShape(w: World, d: Disk, k: Worker, o: Outcome)
    requires k.Busy?
    ensures var r := CompressStep(w, d, k, o).0; r == d || r == d.(gzTemp := d.gzTemp[w.key(k.job) := At(r.gzTemp, w.key(k.job))])
  {
  }

  lemma SkipShape(w: World, d: Disk, k: Worker, o: Outcome)
    requires k.Busy? && k.pc.Skip? && !k.pc.skip.DropTemp? && !k.pc.skip.WriteSkip?
    ensures var r := SkipStep(w, d, k, k.pc.skip, o).0;
            && r.gzTemp == d.gzTemp && r.metaTemp == d.metaTemp
            && (r.skipTemp == d.skipTemp || r.skipTemp == d.skipTemp - {w.key(k.job)})
  {
    match k.pc.skip
    case DropGz =>
    case DropMeta =>
    case DropOldSkip =>
    case RenameSkip =>
  }

  lemma SkipTouches(w: World, d: Disk, k: Worker, o: Outcome)
    requires k.Busy? && k.pc.Skip?
    ensures OthersSame(w.key(k.job), d, SkipStep(w, d, k, k.pc.skip, o).0)
  {
    if k.pc.skip.DropTemp? {
      TouchGz(w.key(k.job), d, [], o.succeeds);
    } else if k.pc.skip.WriteSkip? {
      TouchSkip(w.key(k.job), d, if o.succeeds then w.skipMark(k.job) else o.text, o.succeeds);
    } else {
      SkipShape(w, d, k, o);
      TouchPublished(w.key(k.job), d, SkipStep(w, d, k, k.pc.skip, o).0);
    }
  }

  lemma PublishShape(w: World, d: Disk, k: Worker, o: Outcome)
    requires k.Busy? && k.pc.Publish? && !k.pc.publish.WriteMeta?
    ensures var r := PublishStep(w, d, k, k.pc.publish, o).0;
            && (r.gzTemp == d.gzTemp || r.gzTemp == d.gzTemp - {w.key(k.job)})
            && (r.metaTemp == d.metaTemp || r.metaTemp == d.metaTemp - {w.key(k.job)})
            && r.skipTemp == d.skipTemp
  {
    match k.pc.publish
    case DropOldGz =>
    case RenameGz =>
    case DropOldMeta =>
    case RenameMeta =>
    case RetractGz =>
    case RetractSkip =>
  }

  lemma PublishTouches(w: World, d: Disk, k: Worker, o: Outcome)
    requires k.Busy? && k.pc.Publish?
    ensures OthersSame(w.key(k.job), d, PublishStep(w, d, k, k.pc.publish, o).0)
  {
    if k.pc.publish.WriteMeta? {
      TouchMeta(w.key(k.job), d, if o.succeeds then w.mark(k.job) else o.text, o.succeeds);
    } else {
      PublishShape(w, d, k, o);
      TouchPublished(w.key(k.job), d, PublishStep(w, d, k, k.pc.publish, o).0);
    }
  }

  lemma AbortTouches(w: World, d: Disk, k: Worker, o: Outcome)
    requires k.Busy? && k.pc.Abort?
    ensures OthersSame(w.key(k.job), d, AbortStep(w, d, k, k.pc.abort, o).0)
  {
    match k.pc.abort
    case LoseGzTemp => TouchGz(w.key(k.job), d, [], o.succeeds);
    case LoseBoth => TouchGz(w.key(k.job), d, [], o.succeeds);
    case LoseMetaTemp => TouchMeta(w.key(k.job), d, [], o.succeeds);
    case LoseSkipTemp => TouchSkip(w.key(k.job), d, [], o.succeeds);
  }

  /** A worker touches the temporary files of its own job only. */
  lemma WorkTouches(w: World, d: Disk, k: Worker, o: Outcome)
    requires k.Busy?
    ensures OthersSame(w.key(k.job), d, WorkStep(w, d, k, o).0)
  {
    match k.pc
    case Prepare(_) => PrepareTouches(w, d, k, o);
    case Compress =>
      CompressShape(w, d, k, o);
      TouchGz(w.key(k.job), d, At(CompressStep(w, d, k, o).0.gzTemp, w.key(k.job)), true);
    case Check(_) => TouchGz(w.key(k.job), d, [], true);
    case Skip(_) => SkipTouches(w, d, k, o);
    case Publish(_) => PublishTouches(w, d, k, o);
    case Abort(_) => AbortTouches(w, d, k, o);
  }

  predicate AllTidy(w: World, s: State, events: seq<Event>)
    decreases |events|
  {
    events == [] ||
    (var front := events[..|events| - 1]; AllTidy(w, s, front) && Tidy(Run(w, s, front).worker, events[|events| - 1]))
  }

  lemma {:induction false} TidyRun(w: World, id: SourceId, s: State, events: seq<Event>)
    requires TempsAt(w, id, s.disk, s.worker) && AllTidy(w, s, events)
    ensures var s' := Run(w, s, events); TempsAt(w, id, s'.disk, s'.worker) && OthersSame(w.key(id), s.disk, s'.disk)
    decreases |events|
  {
    if events != [] {
      var front, e := events[..|events| - 1], events[|events| - 1];
      TidyRun(w, id, s, front);
      var s1 := Run(w, s, front);
      StepTidy(w, id, s1, e);
      if s1.worker.Busy? && e.Work? {
        WorkTouches(w, s1.disk, s1.worker, e.outcome);
      } else {
        assert Step(w, s1, e).disk == s1.disk;
      }
    }
  }

  /** A job leaves no temporary file behind, and touches nobody else's, however it ended: with its source
      changed, a file that could not be created, or a read or write that failed. */
  lemma NoTempsLeft(w: World, s: State, id: SourceId, events: seq<Event>, s': State)
    requires s.worker.Idle? && id in w.content && AllTidy(w, Step(w, s, Begin(id)), events)
    requires s' == Run(w, Step(w, s, Begin(id)), events) && s'.worker.Idle?
    ensures NoTemps(w.key(id), s'.disk) && OthersSame(w.key(id), s.disk, s'.disk)
  {
    TidyRun(w, id, Step(w, s, Begin(id)), events);
  }

  // ---------------------------------------------------------------- artifacts without a marker

  /** An artifact of the key stands beside a marker, except between the two renames of a publication. */
  predicate PairAt(key: Key, d: Disk, k: Worker) {
    || (k.Busy? && (k.pc == Publish(DropOldMeta) || k.pc == Publish(RenameMeta) || k.pc == Publish(RetractGz)))
    || ((key in d.gz ==> key in d.meta) && (k.Busy? && k.pc == Skip(DropMeta) ==> key !in d.gz))
  }

  /** The worker is not killed, and takes an artifact away when it means to. */
  predicate Retracts(k: Worker, e: Event) {
    !e.Begin? && !e.StartMaintenance? && !e.Crash? &&
    (e.Work? && k.Busy? && (k.pc == Skip(DropGz) || k.pc == Publish(RetractGz)) ==> e.outcome.succeeds)
  }

  lemma SkipPairs(w: World, d: Disk, k: Worker, o: Outcome)
    requires k.Busy? && (k.pc == Skip(DropGz) || k.pc == Skip(DropMeta)) && PairAt(w.key(k.job), d, k) && Retracts(k, Work(o))
    ensures var r := SkipStep(w, d, k, k.pc.skip, o); PairAt(w.key(k.job), r.0, r.1)
  {
    match k.pc.skip
    case DropGz =>
    case DropMeta =>
  }

  lemma PublishPairs(w: World, d: Disk, k: Worker, o: Outcome)
    requires k.Busy? && PairAt(w.key(k.job), d, k) && Retracts(k, Work(o))
    requires k.pc == Publish(DropOldGz) || k.pc == Publish(RenameGz) || k.pc == Publish(DropOldMeta)
    ensures var r := PublishStep(w, d, k, k.pc.publish, o); PairAt(w.key(k.job), r.0, r.1)
  {
    match k.pc.publish
    case DropOldGz =>
    case RenameGz =>
    case DropOldMeta =>
  }

  lemma PublishesPairs(w: World, d: Disk, k: Worker, o: Outcome)
    requires k.Busy? && PairAt(w.key(k.job), d, k) && Retracts(k, Work(o))
    requires k.pc == Publish(RenameMeta) || k.pc == Publish(RetractGz)
    ensures var r := PublishStep(w, d, k, k.pc.publish, o); PairAt(w.key(k.job), r.0, r.1)
  {
    match k.pc.publish
    case RenameMeta =>
    case RetractGz =>
  }

  /** The operations that leave gz and meta as they are. */
  predicate LeavesPair(pc: Pc) {
    IsPrivate(pc) || pc == Skip(DropOldSkip) || pc == Skip(RenameSkip) || pc == Publish(RetractSkip)
  }

  lemma OtherPairs(w: World, d: Disk, k: Worker, o: Outcome)
    requires k.Busy? && LeavesPair(k.pc) && PairAt(w.key(k.job), d, k)
    ensures var r := WorkStep(w, d, k, o); PairAt(w.key(k.job), r.0, r.1)
  {
    NextIsHarmless(w, d, k, o);
    if IsPrivate(k.pc) {
      PrivateKeeps(w, d, k, o);
    }
  }

  lemma NextIsHarmless(w: World, d: Disk, k: Worker, o: Outcome)
    requires k.Busy? && LeavesPair(k.pc)
    ensures var k' := WorkStep(w, d, k, o).1; k'.Busy? ==> k'.pc != Skip(DropMeta)
    ensures !IsPrivate(k.pc) ==> WorkStep(w, d, k, o).0.gz == d.gz && WorkStep(w, d, k, o).0.meta == d.meta
  {
    match k.pc
    case Prepare(p) => match p { case ClearGzTemp => case ClearMetaTemp => case ClearSkipTemp => case CreateGzTemp => }
    case Compress =>
    case Check(_) =>
    case Skip(p) => match p { case DropTemp => case WriteSkip => case DropOldSkip => case RenameSkip => }
    case Publish(p) => match p { case WriteMeta => case RetractSkip => }
    case Abort(a) => match a { case LoseGzTemp => case LoseBoth => case LoseMetaTemp => case LoseSkipTemp => }
  }

  lemma WorkPairs(w: World, d: Disk, k: Worker, o: Outcome)
    requires k.Busy? && PairAt(w.key(k.job), d, k) && Retracts(k, Work(o))
    ensures var r := WorkStep(w, d, k, o); PairAt(w.key(k.job), r.0, r.1)
  {
    if LeavesPair(k.pc) {
      OtherPairs(w, d, k, o);
    } else if k.pc.Skip? {
      SkipPairs(w, d, k, o);
    } else if k.pc == Publish(RenameMeta) || k.pc == Publish(RetractGz) {
      PublishesPairs(w, d, k, o);
    } else {
      PublishPairs(w, d, k, o);
    }
  }

  lemma SameJob(w: World, d: Disk, k: Worker, o: Outcome)
    requires k.Busy?
    ensures var k' := WorkStep(w, d, k, o).1; (k'.Busy? ==> k'.job == k.job) && !k'.Maintaining?
  {
    match k.pc
    case Prepare(p) => match p { case ClearGzTemp => case ClearMetaTemp => case ClearSkipTemp => case CreateGzTemp => }
    case Compress =>
    case Check(_) =>
    case Skip(p) => match p { case DropTemp => case DropGz => case DropMeta => case WriteSkip => case DropOldSkip => case RenameSkip => }
    case Publish(p) =>
      match p { case WriteMeta => case DropOldGz => case RenameGz => case DropOldMeta => case RenameMeta => case RetractGz => case RetractSkip => }
    case Abort(a) => match a { case LoseGzTemp => case LoseBoth => case LoseMetaTemp => case LoseSkipTemp => }
  }

  predicate AllRetract(w: World, s: State, events: seq<Event>)
    decreases |events|
  {
    events == [] ||
    (var front := events[..|events| - 1]; AllRetract(w, s, front) && Retracts(Run(w, s, front).worker, events[|events| - 1]))
  }

  lemma {:induction false} PairRun(w: World, s: State, id: SourceId, events: seq<Event>)
    requires PairAt(w.key(id), s.disk, s.worker) && !s.worker.Maintaining? && (s.worker.Busy? ==> s.worker.job == id)
    requires AllRetract(w, s, events)
    ensures var s' := Run(w, s, events);
            PairAt(w.key(id), s'.disk, s'.worker) && !s'.worker.Maintaining? && (s'.worker.Busy? ==> s'.worker.job == id)
    decreases |events|
  {
    if events != [] {
      var front, e := events[..|events| - 1], events[|events| - 1];
      PairRun(w, s, id, front);
      var s1 := Run(w, s, front);
      if e.Work? && s1.worker.Busy? {
        WorkPairs(w, s1.disk, s1.worker, e.outcome);
        SameJob(w, s1.disk, s1.worker, e.outcome);
      }
    }
  }

  /** A job leaves no artifact without a marker, also if its second rename fails. */
  lemma NoOrphanLeft(w: World, s: State, id: SourceId, events: seq<Event>, s': State)
    requires s.worker.Idle? && id in w.content && (w.key(id) in s.disk.gz ==> w.key(id) in s.disk.meta)
    requires AllRetract(w, Step(w, s, Begin(id)), events) && s' == Run(w, Step(w, s, Begin(id)), events) && s'.worker.Idle?
    ensures w.key(id) in s'.disk.gz ==> w.key(id) in s'.disk.meta
  {
    PairRun(w, Step(w, s, Begin(id)), id, events);
  }
}
