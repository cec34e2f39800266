/** The publish protocol of the gzip cache (src/compression_cache.cpp): one background worker
    compresses a source into a temporary file and publishes a `.gz` / `.meta` pair by renames, while
    any number of request threads look entries up and open them, maintenance removes files, and the
    process may die, between any two filesystem operations. Every operation is one event; `Step` is
    total, so a run is any sequence of events whatever. */
module PublishProtocol {
  import opened Basics
  import opened Gzip
  import opened Identity

  /** What the run is about: the content every source identity stands for, the texts and key of an
      identity, the deflate library, the reader of the served format and the cache budget. */
  datatype World = World(
    content: map<SourceId, Bytes>,
    mark: SourceId -> string,
    skipMark: SourceId -> string,
    key: SourceId -> Key,
    codec: Codec,
    gunzip: Bytes -> Option<Bytes>,
    maxBytes: nat)

  /** The world of this program, over any hash of identity texts. */
  ghost predicate IsCacheWorld(w: World, hash: string -> Key) {
    && (forall id :: w.mark(id) == SourceIdentity(id))
    && (forall id :: w.skipMark(id) == SkipIdentity(id, w.maxBytes))
    && (forall id :: w.key(id) == hash(SourceIdentity(id)))
    && (forall data :: w.gunzip(data) == Gunzip(w.codec, data))
    && Lawful(w.codec)
    && (forall id :: id in w.content ==> |w.content[id]| == id.size)
  }

  /** The hash does not collide on the identity texts that occur. */
  ghost predicate NoCollision(w: World, hash: string -> Key) {
    forall a, b :: a in w.content && b in w.content && hash(SourceIdentity(a)) == hash(SourceIdentity(b))
      ==> SourceIdentity(a) == SourceIdentity(b)
  }

  /** What the protocol relies on: keys separate identities, and the bytes written for any chunking
      of an identity's content are read back as that content. */
  ghost predicate WellFormed(w: World) {
    && (forall a, b :: a in w.content && b in w.content && w.key(a) == w.key(b) ==> a == b)
    && (forall id :: id in w.content ==> |w.content[id]| == id.size)
    && Lawful(w.codec)
    && (forall data :: w.gunzip(data) == Gunzip(w.codec, data))
  }

  lemma CacheWorldIsWellFormed(w: World, hash: string -> Key)
    requires IsCacheWorld(w, hash) && NoCollision(w, hash)
    ensures WellFormed(w)
  {
    forall a, b | a in w.content && b in w.content && w.key(a) == w.key(b) ensures a == b {
      SourceIdentityInjective(a, b);
    }
  }

  /** The cache directory, one map per file suffix. */
  datatype Disk = Disk(
    gz: map<Key, Bytes>,
    meta: map<Key, string>,
    skip: map<Key, string>,
    gzTemp: map<Key, Bytes>,
    metaTemp: map<Key, string>,
    skipTemp: map<Key, string>)

  /** The next filesystem operation of `compress`, by the part of its body it belongs to. */
  datatype Pc = Prepare(prepare: Preparing) | Compress | Check(check: Checking)
              | Skip(skip: Skipping) | Publish(publish: Publishing) | Abort(abort: Aborting)
  datatype Preparing = ClearGzTemp | ClearMetaTemp | ClearSkipTemp | CreateGzTemp
  datatype Checking = Recheck | Measure
  datatype Skipping = DropTemp | DropGz | DropMeta | WriteSkip | DropOldSkip | RenameSkip
  datatype Publishing = WriteMeta | DropOldGz | RenameGz | DropOldMeta | RenameMeta | RetractGz | RetractSkip
  datatype Aborting = LoseGzTemp | LoseBoth | LoseMetaTemp | LoseSkipTemp

  /** `fd` is the identity the open source file has now; `fed` are the chunks handed to the deflater,
      `ok` the state of the output stream. */
  datatype Worker =
    | Idle
    | Maintaining
    | Busy(job: SourceId, pc: Pc, fd: SourceId, fed: seq<Bytes>, crc: nat, ok: bool)

  /** A request thread, by the operation it performs next; `Sending` holds what it has opened
      and the size it announces, `Wanting` has missed and asks the queue for a job. */
  datatype Lookup =
    | StatMeta(id: SourceId) | ReadMeta(id: SourceId) | StatGz(id: SourceId) | SizeGz(id: SourceId)
    | Hit(id: SourceId, size: nat) | Sending(id: SourceId, size: nat, data: Bytes)
    | StatSkip(id: SourceId) | ReadSkip(id: SourceId) | Wanting(id: SourceId)

  datatype State = State(disk: Disk, worker: Worker, lookups: map<nat, Lookup>)

  /** How the environment answers an operation: whether it succeeds, whether the stream write
      succeeds, the bytes a read of a changed file returns, and what a failed write leaves behind. */
  datatype Outcome = Outcome(succeeds: bool, writes: bool, data: Bytes, torn: Bytes, text: string)

  datatype Victim = VictimGz | VictimMeta | VictimSkip | VictimGzTemp | VictimMetaTemp | VictimSkipTemp

  datatype Event =
    | Begin(job: SourceId)
    | Work(outcome: Outcome)
    | Modify(version: SourceId)
    | StartMaintenance
    | Evict(victim: Victim, key: Key)
    | EndMaintenance
    | Crash
    | Ask(thread: nat, id: SourceId)
    | Advance(thread: nat)

  function Remove<V>(files: map<Key, V>, key: Key, succeeds: bool): (r: map<Key, V>)
    ensures forall other :: other in r ==> other in files && r[other] == files[other]
    ensures succeeds ==> key !in r
  {
    if succeeds then files - {key} else files
  }

  function At(files: map<Key, Bytes>, key: Key): (data: Bytes) {
    if key in files then files[key] else []
  }

  const CHUNK: nat := 65536

  /** The chunk a read of `|raw|` bytes returns: the file's own bytes while the file is the one that
      was opened, anything at all once it has been modified. */
  function ReadChunk(w: World, worker: Worker, raw: Bytes): (chunk: Bytes)
    requires worker.Busy?
    ensures |chunk| == |raw|
  {
    var offset := |Flatten(worker.fed)|;
    if worker.fd == worker.job && worker.job in w.content && offset + |raw| <= |w.content[worker.job]|
    then w.content[worker.job][offset..offset + |raw|]
    else raw
  }

  /** One turn of the read-deflate-write loop, or its end (lines 451-514). */
  function CompressStep(w: World, d: Disk, k: Worker, o: Outcome): (r: (Disk, Worker))
    requires k.Busy?
  {
    var key := w.key(k.job);
    var offset := |Flatten(k.fed)|;
    var file := At(d.gzTemp, key);
    if !o.succeeds then
      (d, k.(pc := Abort(LoseGzTemp)))
    else if offset < k.job.size then
      if |o.data| == 0 || |o.data| > CHUNK || offset + |o.data| > k.job.size then (d, k)
      else
        var chunk := ReadChunk(w, k, o.data);
        var ok := k.ok && o.writes;
        var written := if ok then file + w.codec.emit(k.fed, chunk) else o.torn;
        (d.(gzTemp := d.gzTemp[key := written]),
         k.(fed := k.fed + [chunk], crc := w.codec.crc(k.crc, chunk), ok := ok))
    else
      var ok := k.ok && o.writes;
      var written := if ok
        then file + Trailer(w.codec, k.fed, k.crc, k.job.size)
        else o.torn;
      (d.(gzTemp := d.gzTemp[key := written]), k.(pc := if ok then Check(Recheck) else Abort(LoseGzTemp)))
  }

  /** Lines 419-430: the clean-up before the compression loop. */
  function PrepareStep(w: World, d: Disk, k: Worker, p: Preparing, o: Outcome): (r: (Disk, Worker))
    requires k.Busy?
  {
    var key := w.key(k.job);
    match p
    case ClearGzTemp => (d.(gzTemp := Remove(d.gzTemp, key, o.succeeds)), k.(pc := Prepare(ClearMetaTemp)))
    case ClearMetaTemp => (d.(metaTemp := Remove(d.metaTemp, key, o.succeeds)), k.(pc := Prepare(ClearSkipTemp)))
    case ClearSkipTemp => (d.(skipTemp := Remove(d.skipTemp, key, o.succeeds)), k.(pc := Prepare(CreateGzTemp)))
    case CreateGzTemp =>
      if !o.succeeds then (d, Idle)
      else (d.(gzTemp := d.gzTemp[key := if o.writes then HEADER else o.torn]),
            k.(pc := Compress, fed := [], crc := 0, ok := o.writes))
  }

  /** Lines 516-526: the source must still be the version that was opened, and the gain sufficient. */
  function CheckStep(w: World, d: Disk, k: Worker, c: Checking, o: Outcome): (r: (Disk, Worker))
    requires k.Busy?
  {
    match c
    case Recheck =>
      (d, k.(pc := if o.succeeds && k.fd == k.job then Check(Measure) else Abort(LoseGzTemp)))
    case Measure =>
      var size := |At(d.gzTemp, w.key(k.job))|;
      if !o.succeeds then (d, Idle)
      else if size > w.maxBytes || size >= k.job.size - k.job.size / 20 then (d, k.(pc := Skip(DropTemp)))
      else (d, k.(pc := Publish(WriteMeta)))
  }

  /** Lines 527-557: the result is not worth keeping, so a skip marker replaces the pair. */
  function SkipStep(w: World, d: Disk, k: Worker, p: Skipping, o: Outcome): (r: (Disk, Worker))
    requires k.Busy?
  {
    var key := w.key(k.job);
    match p
    case DropTemp => (d.(gzTemp := Remove(d.gzTemp, key, o.succeeds)), k.(pc := Skip(DropGz)))
    case DropGz => (d.(gz := Remove(d.gz, key, o.succeeds)), k.(pc := Skip(DropMeta)))
    case DropMeta => (d.(meta := Remove(d.meta, key, o.succeeds)), k.(pc := Skip(WriteSkip)))
    case WriteSkip =>
      if o.succeeds then (d.(skipTemp := d.skipTemp[key := w.skipMark(k.job)]), k.(pc := Skip(DropOldSkip)))
      else (d.(skipTemp := d.skipTemp[key := o.text]), k.(pc := Abort(LoseSkipTemp)))
    case DropOldSkip => (d.(skip := Remove(d.skip, key, o.succeeds)), k.(pc := Skip(RenameSkip)))
    case RenameSkip =>
      if o.succeeds && key in d.skipTemp
      then (d.(skip := d.skip[key := d.skipTemp[key]], skipTemp := d.skipTemp - {key}), Idle)
      else (d, Idle)
  }

  /** Lines 560-584: publish the pair, the `.meta` last. */
  function PublishStep(w: World, d: Disk, k: Worker, p: Publishing, o: Outcome): (r: (Disk, Worker))
    requires k.Busy?
  {
    var key := w.key(k.job);
    match p
    case WriteMeta =>
      if o.succeeds then (d.(metaTemp := d.metaTemp[key := w.mark(k.job)]), k.(pc := Publish(DropOldGz)))
      else (d.(metaTemp := d.metaTemp[key := o.text]), k.(pc := Abort(LoseBoth)))
    case DropOldGz => (d.(gz := Remove(d.gz, key, o.succeeds)), k.(pc := Publish(RenameGz)))
    case RenameGz =>
      if o.succeeds && key in d.gzTemp
      then (d.(gz := d.gz[key := d.gzTemp[key]], gzTemp := d.gzTemp - {key}), k.(pc := Publish(DropOldMeta)))
      else (d, Idle)
    case DropOldMeta => (d.(meta := Remove(d.meta, key, o.succeeds)), k.(pc := Publish(RenameMeta)))
    case RenameMeta =>
      if o.succeeds && key in d.metaTemp
      then (d.(meta := d.meta[key := d.metaTemp[key]], metaTemp := d.metaTemp - {key}), k.(pc := Publish(RetractSkip)))
      else (d, k.(pc := Publish(RetractGz)))
    case RetractGz => (d.(gz := Remove(d.gz, key, o.succeeds)), Idle)
    case RetractSkip => (d.(skip := Remove(d.skip, key, o.succeeds)), Idle)
  }

  /** The clean-ups of the failure exits. */
  function AbortStep(w: World, d: Disk, k: Worker, a: Aborting, o: Outcome): (r: (Disk, Worker))
    requires k.Busy?
  {
    var key := w.key(k.job);
    match a
    case LoseGzTemp => (d.(gzTemp := Remove(d.gzTemp, key, o.succeeds)), Idle)
    case LoseBoth => (d.(gzTemp := Remove(d.gzTemp, key, o.succeeds)), k.(pc := Abort(LoseMetaTemp)))
    case LoseMetaTemp => (d.(metaTemp := Remove(d.metaTemp, key, o.succeeds)), Idle)
    case LoseSkipTemp => (d.(skipTemp := Remove(d.skipTemp, key, o.succeeds)), Idle)
  }

  function WorkStep(w: World, d: Disk, k: Worker, o: Outcome): (r: (Disk, Worker))
    requires k.Busy?
  {
    match k.pc
    case Prepare(p) => PrepareStep(w, d, k, p, o)
    case Compress => CompressStep(w, d, k, o)
    case Check(c) => CheckStep(w, d, k, c, o)
    case Skip(p) => SkipStep(w, d, k, p, o)
    case Publish(p) => PublishStep(w, d, k, p, o)
    case Abort(a) => AbortStep(w, d, k, a, o)
  }

  /** Maintenance removes one file of its choice; which ones it should remove is `CacheBudget`'s subject. */
  function EvictFile(d: Disk, victim: Victim, key: Key): (r: Disk) {
    match victim
    case VictimGz => d.(gz := d.gz - {key})
    case VictimMeta => d.(meta := d.meta - {key})
    case VictimSkip => d.(skip := d.skip - {key})
    case VictimGzTemp => d.(gzTemp := d.gzTemp - {key})
    case VictimMetaTemp => d.(metaTemp := d.metaTemp - {key})
    case VictimSkipTemp => d.(skipTemp := d.skipTemp - {key})
  }

  /** One filesystem operation of `lookup` (lines 258-272) or of the open that follows a hit
      (src/fastdl_server.cpp lines 640-648). A marker is stat'ed and read separately, and only as many
      bytes as the text has are compared. After a miss the skip marker decides whether a job is wanted.
      `None` is the end of the thread's business with the cache. */
  function LookupStep(w: World, d: Disk, l: Lookup): (r: Option<Lookup>) {
    var key := w.key(l.id);
    match l
    case StatMeta(id) =>
      Some(if key in d.meta && |d.meta[key]| == |w.mark(id)| then ReadMeta(id) else StatSkip(id))
    case ReadMeta(id) =>
      Some(if key in d.meta && w.mark(id) <= d.meta[key] then StatGz(id) else StatSkip(id))
    case StatGz(id) => Some(if key in d.gz then SizeGz(id) else StatSkip(id))
    case SizeGz(id) => Some(if key in d.gz && |d.gz[key]| >= 18 then Hit(id, |d.gz[key]|) else StatSkip(id))
    case Hit(id, size) => if key in d.gz && |d.gz[key]| == size then Some(Sending(id, size, d.gz[key])) else None
    case StatSkip(id) =>
      Some(if key in d.skip && |d.skip[key]| == |w.skipMark(id)| then ReadSkip(id) else Wanting(id))
    case ReadSkip(id) => if key in d.skip && w.skipMark(id) <= d.skip[key] then None else Some(Wanting(id))
    case Sending(_, _, _) | Wanting(_) => Some(l)
  }

  function Step(w: World, s: State, e: Event): (s': State) {
    match e
    case Begin(job) =>
      if s.worker.Idle? && job in w.content
      then s.(worker := Busy(job, Prepare(ClearGzTemp), job, [], 0, true)) else s
    case Work(o) =>
      if s.worker.Busy? then var r := WorkStep(w, s.disk, s.worker, o); s.(disk := r.0, worker := r.1) else s
    case Modify(version) =>
      if s.worker.Busy? then s.(worker := s.worker.(fd := version)) else s
    case StartMaintenance => if s.worker.Idle? then s.(worker := Maintaining) else s
    case Evict(victim, key) => if s.worker.Maintaining? then s.(disk := EvictFile(s.disk, victim, key)) else s
    case EndMaintenance => if s.worker.Maintaining? then s.(worker := Idle) else s
    case Crash => s.(worker := Idle, lookups := map[])
    case Ask(thread, id) =>
      if thread !in s.lookups && id in w.content then s.(lookups := s.lookups[thread := StatMeta(id)]) else s
    case Advance(thread) =>
      if thread !in s.lookups then s
      else
        match LookupStep(w, s.disk, s.lookups[thread])
        case None => s.(lookups := s.lookups - {thread})
        case Some(l) => s.(lookups := s.lookups[thread := l])
  }

  function Run(w: World, s: State, events: seq<Event>): (s': State)
    decreases |events|
  {
    if events == [] then s else Step(w, Run(w, s, events[..|events| - 1]), events[|events| - 1])
  }

  // ---------------------------------------------------------------- invariant

  /** These bytes decompress to exactly the content the identity stands for. */
  predicate Holds(w: World, id: SourceId, data: Bytes) {
    id in w.content && w.gunzip(data) == Some(w.content[id])
  }

  /** The published artifact of the identity, if there is one, is its content. */
  predicate GoodGz(w: World, d: Disk, id: SourceId) {
    w.key(id) in d.gz ==> Holds(w, id, d.gz[w.key(id)])
  }

  /** The identity's marker starts with the identity, which is all that `ReadMeta` establishes. */
  predicate Marked(w: World, d: Disk, id: SourceId) {
    w.key(id) in d.meta && w.mark(id) <= d.meta[w.key(id)]
  }

  /** A consistent directory: a marker never vouches for an artifact with other content. */
  ghost predicate Consistent(w: World, d: Disk) {
    forall id :: id in w.content && Marked(w, d, id) ==> GoodGz(w, d, id)
  }

  predicate LookupOk(w: World, d: Disk, l: Lookup) {
    && l.id in w.content
    && (l.StatGz? || l.SizeGz? || l.Hit? ==> GoodGz(w, d, l.id))
    && (l.Sending? ==> Holds(w, l.id, l.data) && |l.data| == l.size)
  }

  /** What holds of the worker in every run whatever: the temporary file is the stream of what was fed
      as long as no write failed, and reads back as that once it is complete. */
  predicate WorkerBase(w: World, d: Disk, k: Worker) {
    k.Busy? ==>
      && k.job in w.content
      && (k.pc.Compress? ==> StreamOk(w, d, k))
      && (k.pc.Check? ==> CompleteOk(w, d, k))
  }

  predicate StreamOk(w: World, d: Disk, k: Worker)
    requires k.Busy?
  {
    && |Flatten(k.fed)| <= k.job.size
    && (k.ok ==> EncoderAt(w.codec, k.fed, k.crc, At(d.gzTemp, w.key(k.job))))
  }

  predicate CompleteOk(w: World, d: Disk, k: Worker)
    requires k.Busy?
  {
    |Flatten(k.fed)| == k.job.size && w.gunzip(At(d.gzTemp, w.key(k.job))) == Some(Flatten(k.fed))
  }

  /** What was fed is a piece of the version the job was started for. */
  predicate FedTruly(w: World, k: Worker)
    requires k.Busy?
  {
    k.job in w.content && Flatten(k.fed) <= w.content[k.job]
  }

  /** What holds besides as long as no return to the job's version was false: while the open file is
      that version, what was fed is a piece of it, and what is published is its content. */
  predicate WorkerTrue(w: World, d: Disk, k: Worker) {
    k.Busy? ==>
      match k.pc
      case Compress => k.fd == k.job ==> FedTruly(w, k)
      case Check(c) => c.Measure? || k.fd == k.job ==> FedTruly(w, k)
      case Publish(p) => PublishingOk(w, d, k.job, p)
      case _ => true
  }

  predicate PublishingOk(w: World, d: Disk, job: SourceId, p: Publishing) {
    var key := w.key(job);
    match p
    case WriteMeta => Holds(w, job, At(d.gzTemp, key))
    case DropOldGz | RenameGz =>
      Holds(w, job, At(d.gzTemp, key)) && key in d.metaTemp && d.metaTemp[key] == w.mark(job)
    case DropOldMeta | RenameMeta => GoodGz(w, d, job) && key in d.metaTemp && d.metaTemp[key] == w.mark(job)
    case RetractGz | RetractSkip => true
  }

  ghost predicate Inv(w: World, s: State) {
    && Consistent(w, s.disk)
    && WorkerBase(w, s.disk, s.worker) && WorkerTrue(w, s.disk, s.worker)
    && (forall t :: t in s.lookups ==> LookupOk(w, s.disk, s.lookups[t]))
  }

  // ---------------------------------------------------------------- sources that change back

  /** The open source gets back the identity the job was started for, although what was read meanwhile
      is not that version's content. The second inspection cannot tell: it compares identities. */
  predicate FalseReturn(w: World, s: State, e: Event) {
    && e.Modify? && s.worker.Busy? && s.worker.job in w.content
    && (s.worker.pc.Compress? || s.worker.pc == Check(Recheck))
    && s.worker.fd != s.worker.job && e.version == s.worker.job
    && !FedTruly(w, s.worker)
  }

  /** No event of the run is such a return. */
  ghost predicate TrueReturns(w: World, s: State, events: seq<Event>)
    decreases |events|
  {
    events == [] ||
    (var front := events[..|events| - 1];
     TrueReturns(w, s, front) && !FalseReturn(w, Run(w, s, front), events[|events| - 1]))
  }

  /** The open source never gets back the identity the job was started for. */
  ghost predicate NeverReturns(w: World, s: State, events: seq<Event>) {
    forall n :: 0 <= n < |events| && events[n].Modify? ==>
      var k := Run(w, s, events[..n]).worker; k.Busy? && k.fd != k.job ==> events[n].version != k.job
  }

  lemma {:induction false} NeverReturnsTrueReturns(w: World, s: State, events: seq<Event>)
    requires NeverReturns(w, s, events)
    ensures TrueReturns(w, s, events)
    decreases |events|
  {
    if events != [] {
      var front := events[..|events| - 1];
      forall n | 0 <= n < |front| ensures front[..n] == events[..n] && front[n] == events[n] {
      }
      NeverReturnsTrueReturns(w, s, front);
    }
  }

  /** What every change of the directory must respect: a good artifact is not replaced by a bad one,
      and a marker appears only beside a good artifact. */
  ghost predicate Respects(w: World, d: Disk, d': Disk) {
    forall id :: id in w.content ==>
      && (GoodGz(w, d, id) ==> GoodGz(w, d', id))
      && (Marked(w, d', id) ==> Marked(w, d, id) || GoodGz(w, d', id))
  }

  /** Files only disappeared. */
  predicate Shrinks(d: Disk, d': Disk) {
    && (forall key :: key in d'.gz ==> key in d.gz && d'.gz[key] == d.gz[key])
    && (forall key :: key in d'.meta ==> key in d.meta && d'.meta[key] == d.meta[key])
  }

  lemma ShrinkingRespects(w: World, d: Disk, d': Disk)
    requires Shrinks(d, d')
    ensures Respects(w, d, d')
  {
  }

  lemma RespectsKeeps(w: World, s: State, d': Disk, k': Worker)
    requires Inv(w, s) && Respects(w, s.disk, d') && WorkerBase(w, d', k') && WorkerTrue(w, d', k')
    ensures Inv(w, s.(disk := d', worker := k'))
  {
    forall t | t in s.lookups ensures LookupOk(w, d', s.lookups[t]) {
      var l := s.lookups[t];
      assert LookupOk(w, s.disk, l);
      assert GoodGz(w, s.disk, l.id) ==> GoodGz(w, d', l.id);
    }
  }

  lemma ReadKeepsPrefix(w: World, k: Worker, raw: Bytes)
    requires k.Busy? && k.job in w.content && |w.content[k.job]| == k.job.size
    requires |Flatten(k.fed)| + |raw| <= k.job.size
    requires k.fd == k.job && Flatten(k.fed) <= w.content[k.job]
    ensures Flatten(k.fed) + ReadChunk(w, k, raw) <= w.content[k.job]
  {
  }

  predicate ReadOk(k: Worker, o: Outcome)
    requires k.Busy?
  {
    o.succeeds && 0 < |o.data| <= CHUNK && |Flatten(k.fed)| + |o.data| <= k.job.size
  }

  /** What a step of the worker keeps: its stream, and its truth if it had it. */
  predicate Keeps(w: World, d: Disk, k: Worker, r: (Disk, Worker)) {
    WorkerBase(w, r.0, r.1) && (WorkerTrue(w, d, k) ==> WorkerTrue(w, r.0, r.1))
  }

  lemma FeedKeeps(w: World, d: Disk, k: Worker, o: Outcome)
    requires k.Busy? && k.pc.Compress? && WorkerBase(w, d, k) && |w.content[k.job]| == k.job.size
    requires ReadOk(k, o)
    requires var chunk := ReadChunk(w, k, o.data);
             k.ok ==> EncoderAt(w.codec, k.fed + [chunk], w.codec.crc(k.crc, chunk),
                                At(d.gzTemp, w.key(k.job)) + w.codec.emit(k.fed, chunk))
    ensures var r := CompressStep(w, d, k, o); Shrinks(d, r.0) && Keeps(w, d, k, r)
  {
    var chunk := ReadChunk(w, k, o.data);
    FlattenSnoc(k.fed, chunk);
    if k.fd == k.job && FedTruly(w, k) {
      ReadKeepsPrefix(w, k, o.data);
    }
    var r := CompressStep(w, d, k, o);
    assert r.1.fed == k.fed + [chunk];
    assert StreamOk(w, r.0, r.1);
  }

  lemma FinishKeeps(w: World, d: Disk, k: Worker, o: Outcome)
    requires k.Busy? && k.pc.Compress? && WorkerBase(w, d, k) && |Flatten(k.fed)| == k.job.size
    requires var file := At(d.gzTemp, w.key(k.job));
             k.ok ==> w.gunzip(file + Trailer(w.codec, k.fed, k.crc, k.job.size)) == Some(Flatten(k.fed))
    ensures var r := CompressStep(w, d, k, o); Shrinks(d, r.0) && Keeps(w, d, k, r)
  {
  }

  lemma CompressKeeps(w: World, d: Disk, k: Worker, o: Outcome)
    requires WellFormed(w) && k.Busy? && k.pc.Compress? && WorkerBase(w, d, k)
    ensures var r := CompressStep(w, d, k, o); Shrinks(d, r.0) && Keeps(w, d, k, r)
  {
    var file := At(d.gzTemp, w.key(k.job));
    if |Flatten(k.fed)| == k.job.size {
      if k.ok {
        EncoderFinish(w.codec, k.fed, k.crc, file);
      }
      FinishKeeps(w, d, k, o);
    } else if ReadOk(k, o) {
      if k.ok {
        EncoderFeed(w.codec, k.fed, k.crc, file, ReadChunk(w, k, o.data));
      }
      FeedKeeps(w, d, k, o);
    } else {
      assert CompressStep(w, d, k, o) == (d, if o.succeeds then k else k.(pc := Abort(LoseGzTemp)));
    }
  }

  lemma PrepareKeeps(w: World, d: Disk, k: Worker, o: Outcome)
    requires k.Busy? && k.pc.Prepare? && WorkerBase(w, d, k) && EncoderAt(w.codec, [], 0, HEADER)
    ensures var r := PrepareStep(w, d, k, k.pc.prepare, o); Shrinks(d, r.0) && Keeps(w, d, k, r)
  {
    match k.pc.prepare
    case CreateGzTemp =>
      var r := PrepareStep(w, d, k, CreateGzTemp, o);
      if o.succeeds {
        assert StreamOk(w, r.0, r.1);
      }
    case ClearGzTemp =>
    case ClearMetaTemp =>
    case ClearSkipTemp =>
  }

  /** A job passes its last check only with a file that reads back as what was fed, and, if no return
      was false, as the content of its version. */
  lemma CheckKeeps(w: World, d: Disk, k: Worker, o: Outcome)
    requires k.Busy? && k.pc.Check? && WorkerBase(w, d, k) && |w.content[k.job]| == k.job.size
    ensures var r := CheckStep(w, d, k, k.pc.check, o); Shrinks(d, r.0) && Keeps(w, d, k, r)
  {
    if FedTruly(w, k) {
      assert Flatten(k.fed) == w.content[k.job];
    }
  }

  lemma SkipDrops(w: World, d: Disk, k: Worker, o: Outcome)
    requires k.Busy? && (k.pc == Skip(DropGz) || k.pc == Skip(DropMeta))
    ensures Shrinks(d, SkipStep(w, d, k, k.pc.skip, o).0)
  {
  }

  lemma SkipSpares(w: World, d: Disk, k: Worker, o: Outcome)
    requires k.Busy? && k.pc.Skip? && k.pc.skip != DropGz && k.pc.skip != DropMeta
    ensures var r := SkipStep(w, d, k, k.pc.skip, o); r.0.gz == d.gz && r.0.meta == d.meta
  {
    match k.pc.skip
    case DropTemp =>
    case WriteSkip =>
    case DropOldSkip =>
    case RenameSkip =>
  }

  lemma SkipPc(w: World, d: Disk, k: Worker, o: Outcome)
    requires k.Busy? && k.pc.Skip? && WorkerBase(w, d, k)
    ensures var r := SkipStep(w, d, k, k.pc.skip, o);
            r.1.Idle? || (r.1.Busy? && (r.1.pc.Skip? || r.1.pc.Abort?) && r.1.job == k.job)
  {
    match k.pc.skip
    case DropTemp =>
    case DropGz =>
    case DropMeta =>
    case WriteSkip =>
    case DropOldSkip =>
    case RenameSkip =>
  }

  lemma SkipKeeps(w: World, d: Disk, k: Worker, o: Outcome)
    requires k.Busy? && k.pc.Skip? && WorkerBase(w, d, k)
    ensures var r := SkipStep(w, d, k, k.pc.skip, o); Shrinks(d, r.0) && Keeps(w, d, k, r)
  {
    SkipPc(w, d, k, o);
    if k.pc.skip == DropGz || k.pc.skip == DropMeta {
      SkipDrops(w, d, k, o);
    } else {
      SkipSpares(w, d, k, o);
    }
  }

  lemma AbortKeeps(w: World, d: Disk, k: Worker, o: Outcome)
    requires k.Busy? && k.pc.Abort? && WorkerBase(w, d, k)
    ensures var r := AbortStep(w, d, k, k.pc.abort, o); Shrinks(d, r.0) && Keeps(w, d, k, r)
  {
    match k.pc.abort
    case LoseGzTemp =>
    case LoseBoth =>
    case LoseMetaTemp =>
    case LoseSkipTemp =>
  }

  /** The two renames: the artifact that appears is the job's, the marker that appears has the job's
      artifact beside it, and no other identity has the job's key. */
  lemma RenameKeeps(w: World, d: Disk, k: Worker, o: Outcome)
    requires WellFormed(w) && k.Busy? && WorkerBase(w, d, k) && WorkerTrue(w, d, k)
    requires k.pc == Publish(RenameGz) || k.pc == Publish(RenameMeta)
    ensures var r := PublishStep(w, d, k, k.pc.publish, o); Respects(w, d, r.0) && WorkerTrue(w, r.0, r.1)
  {
  }

  lemma PublishShrinks(w: World, d: Disk, k: Worker, o: Outcome)
    requires k.Busy? && k.pc.Publish? && WorkerBase(w, d, k)
    requires k.pc.publish != RenameGz && k.pc.publish != RenameMeta
    ensures var r := PublishStep(w, d, k, k.pc.publish, o);
            Shrinks(d, r.0) && (WorkerTrue(w, d, k) ==> WorkerTrue(w, r.0, r.1))
  {
    match k.pc.publish
    case WriteMeta =>
    case DropOldGz =>
    case DropOldMeta =>
    case RetractGz =>
    case RetractSkip =>
  }

  lemma PublishBase(w: World, d: Disk, k: Worker, o: Outcome)
    requires k.Busy? && k.pc.Publish? && WorkerBase(w, d, k)
    ensures var r := PublishStep(w, d, k, k.pc.publish, o); WorkerBase(w, r.0, r.1)
  {
    match k.pc.publish
    case WriteMeta =>
    case DropOldGz =>
    case RenameGz =>
    case DropOldMeta =>
    case RenameMeta =>
    case RetractGz =>
    case RetractSkip =>
  }

  lemma PublishKeeps(w: World, d: Disk, k: Worker, o: Outcome)
    requires WellFormed(w) && k.Busy? && k.pc.Publish? && WorkerBase(w, d, k) && WorkerTrue(w, d, k)
    ensures var r := PublishStep(w, d, k, k.pc.publish, o); Respects(w, d, r.0) && WorkerTrue(w, r.0, r.1)
  {
    if k.pc.publish == RenameGz || k.pc.publish == RenameMeta {
      RenameKeeps(w, d, k, o);
    } else {
      PublishShrinks(w, d, k, o);
      ShrinkingRespects(w, d, PublishStep(w, d, k, k.pc.publish, o).0);
    }
  }

  /** Every step but the renames of publishing only takes published files away. */
  lemma QuietWorkKeeps(w: World, d: Disk, k: Worker, o: Outcome)
    requires WellFormed(w) && k.Busy? && !k.pc.Publish? && WorkerBase(w, d, k)
    ensures var r := WorkStep(w, d, k, o); Shrinks(d, r.0) && Keeps(w, d, k, r)
  {
    match k.pc
    case Prepare(_) =>
      EncoderStart(w.codec);
      PrepareKeeps(w, d, k, o);
    case Compress => CompressKeeps(w, d, k, o);
    case Check(_) => CheckKeeps(w, d, k, o);
    case Skip(_) => SkipKeeps(w, d, k, o);
    case Abort(_) => AbortKeeps(w, d, k, o);
  }

  lemma WorkBase(w: World, d: Disk, k: Worker, o: Outcome)
    requires WellFormed(w) && k.Busy? && WorkerBase(w, d, k)
    ensures var r := WorkStep(w, d, k, o); WorkerBase(w, r.0, r.1)
  {
    if k.pc.Publish? {
      PublishBase(w, d, k, o);
    } else {
      QuietWorkKeeps(w, d, k, o);
    }
  }

  lemma WorkKeeps(w: World, d: Disk, k: Worker, o: Outcome)
    requires WellFormed(w) && k.Busy? && WorkerBase(w, d, k) && WorkerTrue(w, d, k)
    ensures var r := WorkStep(w, d, k, o); Respects(w, d, r.0) && WorkerTrue(w, r.0, r.1)
  {
    if k.pc.Publish? {
      PublishKeeps(w, d, k, o);
    } else {
      QuietWorkKeeps(w, d, k, o);
      ShrinkingRespects(w, d, WorkStep(w, d, k, o).0);
    }
  }

  lemma EvictShrinks(d: Disk, victim: Victim, key: Key)
    ensures Shrinks(d, EvictFile(d, victim, key))
  {
    match victim
    case VictimGz =>
    case VictimMeta =>
    case VictimSkip =>
    case VictimGzTemp =>
    case VictimMetaTemp =>
    case VictimSkipTemp =>
  }

  lemma StepBase(w: World, s: State, e: Event)
    requires WellFormed(w) && WorkerBase(w, s.disk, s.worker)
    ensures var s' := Step(w, s, e); WorkerBase(w, s'.disk, s'.worker)
  {
    match e
    case Work(o) =>
      if s.worker.Busy? {
        WorkBase(w, s.disk, s.worker, o);
      }
    case Begin(_) =>
    case Modify(version) => ModifyKeepsStream(w, s, version);
    case StartMaintenance =>
    case Evict(_, _) =>
    case EndMaintenance =>
    case Crash =>
    case Ask(_, _) =>
    case Advance(_) =>
  }

  lemma StepKeeps(w: World, s: State, e: Event)
    requires WellFormed(w) && Inv(w, s) && !FalseReturn(w, s, e)
    ensures Inv(w, Step(w, s, e))
  {
    match e
    case Work(o) =>
      if s.worker.Busy? {
        var r := WorkStep(w, s.disk, s.worker, o);
        WorkBase(w, s.disk, s.worker, o);
        WorkKeeps(w, s.disk, s.worker, o);
        RespectsKeeps(w, s, r.0, r.1);
      }
    case Evict(victim, key) =>
      if s.worker.Maintaining? {
        EvictShrinks(s.disk, victim, key);
        ShrinkingRespects(w, s.disk, EvictFile(s.disk, victim, key));
        RespectsKeeps(w, s, EvictFile(s.disk, victim, key), s.worker);
      }
    case Advance(thread) =>
      if thread in s.lookups {
        AdvanceKeeps(w, s, thread);
      }
    case Begin(_) =>
    case Modify(version) => ModifyKeeps(w, s, version);
    case StartMaintenance =>
    case EndMaintenance =>
    case Crash =>
    case Ask(_, _) =>
  }

  /** Whatever becomes of the source, the temporary file stays the stream of what was read from it. */
  lemma ModifyKeepsStream(w: World, s: State, version: SourceId)
    requires WorkerBase(w, s.disk, s.worker)
    ensures WorkerBase(w, s.disk, Step(w, s, Modify(version)).worker)
  {
    if s.worker.Busy? {
      var k' := s.worker.(fd := version);
      assert k'.pc.Compress? ==> StreamOk(w, s.disk, k');
      assert k'.pc.Check? ==> CompleteOk(w, s.disk, k');
    }
  }

  /** Changing the open source only weakens what is claimed of it, and so does changing it back, unless
      something else was read in between. */
  lemma ModifyKeeps(w: World, s: State, version: SourceId)
    requires Inv(w, s) && !FalseReturn(w, s, Modify(version))
    ensures Inv(w, Step(w, s, Modify(version)))
  {
    ModifyKeepsStream(w, s, version);
    if s.worker.Busy? {
      var k' := s.worker.(fd := version);
      assert FedTruly(w, k') == FedTruly(w, s.worker);
      assert WorkerTrue(w, s.disk, k');
    }
  }

  lemma AdvanceKeeps(w: World, s: State, thread: nat)
    requires Inv(w, s) && thread in s.lookups
    ensures Inv(w, Step(w, s, Advance(thread)))
  {
    var l := s.lookups[thread];
    assert LookupOk(w, s.disk, l);
    assert Marked(w, s.disk, l.id) ==> GoodGz(w, s.disk, l.id);
    var s' := Step(w, s, Advance(thread));
    forall t | t in s'.lookups ensures LookupOk(w, s'.disk, s'.lookups[t]) {
      assert t != thread ==> s'.lookups[t] == s.lookups[t];
    }
  }

  // ---------------------------------------------------------------- safety

  ghost predicate Init(w: World, s: State) {
    Consistent(w, s.disk) && s.worker.Idle? && s.lookups == map[]
  }

  lemma {:induction false} RunKeeps(w: World, s: State, events: seq<Event>)
    requires WellFormed(w) && Init(w, s) && TrueReturns(w, s, events)
    ensures Inv(w, Run(w, s, events))
    decreases |events|
  {
    if events != [] {
      RunKeeps(w, s, events[..|events| - 1]);
      StepKeeps(w, Run(w, s, events[..|events| - 1]), events[|events| - 1]);
    }
  }

  /** Safety of the cache over every run from a consistent directory in which no source returns falsely:
      whatever a request thread has opened after a hit decompresses to exactly the content of the source
      version it asked for, and a thread that still has to open its hit finds either nothing or such an
      artifact. */
  lemma ServedContentIsSource(w: World, hash: string -> Key, s: State, events: seq<Event>, thread: nat)
    requires IsCacheWorld(w, hash) && NoCollision(w, hash) && Init(w, s) && TrueReturns(w, s, events)
    requires thread in Run(w, s, events).lookups
    ensures var s' := Run(w, s, events);
            var l := s'.lookups[thread];
            && l.id in w.content
            && (l.Sending? ==> Gunzip(w.codec, l.data) == Some(w.content[l.id]) && |l.data| == l.size)
            && (l.Hit? && w.key(l.id) in s'.disk.gz ==>
                  Gunzip(w.codec, s'.disk.gz[w.key(l.id)]) == Some(w.content[l.id]))
  {
    CacheWorldIsWellFormed(w, hash);
    RunKeeps(w, s, events);
    var s' := Run(w, s, events);
    assert LookupOk(w, s'.disk, s'.lookups[thread]);
  }

  lemma {:induction false} RunBase(w: World, s: State, events: seq<Event>)
    requires WellFormed(w) && WorkerBase(w, s.disk, s.worker)
    ensures var s' := Run(w, s, events); WorkerBase(w, s'.disk, s'.worker)
    decreases |events|
  {
    if events != [] {
      RunBase(w, s, events[..|events| - 1]);
      StepBase(w, Run(w, s, events[..|events| - 1]), events[|events| - 1]);
    }
  }

  /** In every run whatever, false returns included: a job that has passed the second inspection is about
      to publish its version's content if and only if the bytes it read are that content. */
  lemma InspectedIff(w: World, s: State, events: seq<Event>, k: Worker)
    requires WellFormed(w) && s.worker.Idle? && k == Run(w, s, events).worker && k.Busy? && k.pc == Check(Measure)
    ensures k.job in w.content
    ensures Holds(w, k.job, At(Run(w, s, events).disk.gzTemp, w.key(k.job))) <==> Flatten(k.fed) == w.content[k.job]
  {
    RunBase(w, s, events);
  }
}
