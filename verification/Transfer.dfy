/** One file response from the request header to the outcome (src/fastdl_server.cpp): which bytes are
    selected, how the reader callback supplies them under arbitrary bandwidth grants and short reads,
    and how the finished transfer is classified. */
module Transfer {
  import opened Numerals
  import opened Basics
  import opened Gzip
  import opened ByteRange

  /** What `serveFile` decides to send. */
  datatype Plan =
    | RangeError
    | Send(source: Bytes, offset: nat, length: nat, partial: bool, compressed: bool)

  /** Lines 622-651 and 691-692: `ifRange` tells whether the If-Range condition holds, `cached` is the
      opened gzip representation when compression is on, negotiated and looked up with success. */
  function Select(header: string, ifRange: bool, file: Bytes, cached: Option<Bytes>): (p: Plan) {
    match ParseRange(header, |file|)
    case Invalid => RangeError
    case Unsatisfiable => RangeError
    case Absent => SelectWhole(file, cached)
    case Valid(start, length) =>
      if ifRange then Send(file, start, length, true, false) else SelectWhole(file, cached)
  }

  function SelectWhole(file: Bytes, cached: Option<Bytes>): (p: Plan) {
    match cached
    case None => Send(file, 0, |file|, false, false)
    case Some(data) => Send(data, 0, |data|, false, true)
  }

  /** The bytes a plan stands for. */
  function Wanted(p: Plan): (body: Bytes)
    requires p.Send? && p.offset + p.length <= |p.source|
  {
    p.source[p.offset..p.offset + p.length]
  }

  /** A selection lies inside its source; a partial one is the parsed range of the file itself, a
      compressed one is the whole cached representation, any other the whole file. */
  lemma SelectInside(header: string, ifRange: bool, file: Bytes, cached: Option<Bytes>)
    ensures var p, r := Select(header, ifRange, file, cached), ParseRange(header, |file|);
            && (p.RangeError? <==> r.Invalid? || r.Unsatisfiable?)
            && (p.Send? ==> (p.partial <==> r.Valid? && ifRange) && (p.compressed <==> !p.partial && cached.Some?))
    ensures var p := Select(header, ifRange, file, cached);
            p.Send? ==>
              && p.offset + p.length <= |p.source|
              && (p.partial ==> p.length >= 1 && ParseRange(header, |file|) == Valid(p.offset, p.length))
              && (p.compressed ==> !p.partial && cached == Some(p.source) && Wanted(p) == p.source)
              && (!p.compressed ==> p.source == file)
              && (!p.partial && !p.compressed ==> Wanted(p) == file)
  {
    RangeInside(header, |file|);
    assert file[0..|file|] == file;
    assert cached.Some? ==> cached.value[0..|cached.value|] == cached.value;
  }

  /** A request without a range, or whose range no longer applies, is for the whole file: as it is, or as its
      cached representation if there is one. */
  lemma PlainRequest(header: string, ifRange: bool, file: Bytes, cached: Option<Bytes>)
    requires AllBlank(header) || (!ifRange && ParseRange(header, |file|).Valid?)
    ensures var p := Select(header, ifRange, file, cached);
            && p.Send? && p.offset == 0 && p.length == |p.source| && !p.partial && p.compressed == cached.Some?
            && p.source == (if cached.Some? then cached.value else file)
  {
    AbsentIff(header, |file|);
  }

  /** The body is the file: compressed, the range asked for, or as it is. */
  predicate IsFile(p: Plan, body: Bytes, file: Bytes, codec: Codec) {
    && p.Send?
    && if p.compressed then Gunzip(codec, body) == Some(file)
       else if p.partial then p.offset + p.length <= |file| && body == file[p.offset..p.offset + p.length]
       else body == file
  }

  datatype Answer = EndOfStream | EndWithError | Data(bytes: Bytes)

  /** How the environment meets one call of the reader: the room in its buffer, the bytes the limiter
      grants (zero when cancelled), and the bytes the read returns (at most zero on failure). */
  datatype Call = Call(room: nat, grant: nat, got: int) {
    /** The environment grants and reads at least one byte. */
    predicate Served() {
      room > 0 && grant > 0 && got > 0
    }
  }

  datatype Termination = CompletedOk | WithError | TimeoutReached | DaemonShutdown | ReadError | ClientAbort
  datatype Outcome = Completed | Aborted | TimedOut | Failed

  /** `requestCompleted`, lines 488-497. */
  function Classify(t: Termination, supplied: nat, responseSize: nat): (o: Outcome)
    ensures o == Completed <==> t == CompletedOk && supplied == responseSize
  {
    if t == CompletedOk && supplied == responseSize then Completed
    else if t == ClientAbort then Aborted
    else if t == TimeoutReached then TimedOut
    else Failed
  }

  class TransferContext {
    const source: Bytes
    const offset: nat
    const length: nat
    var supplied: nat

    constructor (source: Bytes, offset: nat, length: nat)
      ensures this.source == source && this.offset == offset && this.length == length && supplied == 0
    {
      this.source, this.offset, this.length, supplied := source, offset, length, 0;
    }

    /** The reader callback (lines 321-347): the bytes it returns are the file's own at the position
        asked for, never past the selected piece, and exactly they are counted. */
    method FileReader(pos: nat, call: Call) returns (answer: Answer)
      modifies this`supplied
      ensures pos >= length <==> answer == EndOfStream
      ensures answer.Data? ==>
        var n := |answer.bytes|;
        && 0 < n <= call.room && n <= call.grant && pos + n <= length
        && offset + pos + n <= |source| && answer.bytes == source[offset + pos..offset + pos + n]
      ensures answer.Data? && offset + length <= |source| ==>
        |answer.bytes| == Min(Min(length - pos, call.room), Min(call.grant, call.got))
      ensures supplied == old(supplied) + if answer.Data? then |answer.bytes| else 0
      ensures pos < length && call.Served() && offset + length <= |source| <= MAX_U64 ==> answer.Data?
    {
      if pos >= length {
        return EndOfStream;
      }
      var remaining := length - pos;
      var requested := if remaining <= call.room then remaining else call.room;
      requested := if call.grant <= requested then call.grant else requested;
      if requested == 0 || offset > MAX_U64 - pos {
        return EndWithError;
      }
      var absolute := offset + pos;
      var count := ReadFileAt(absolute, requested, call.got);
      if count <= 0 {
        return EndWithError;
      }
      supplied := supplied + count;
      answer := Data(source[absolute..absolute + count]);
    }

    /** A positional read: as many bytes as the system cares to return, within the request and the file. */
    function ReadFileAt(absolute: nat, requested: nat, got: int): (count: int)
      ensures count > 0 ==> absolute + count <= |source| && count <= requested
    {
      var available := |source| - absolute;
      var count := if got <= requested then got else requested;
      if count <= available then count else available
    }
  }

  lemma Adjacent(source: Bytes, offset: nat, pos: nat, n: nat)
    requires offset + pos + n <= |source|
    ensures source[offset..offset + pos] + source[offset + pos..offset + pos + n] == source[offset..offset + pos + n]
  {
  }

  /** The library calls the reader with the number of bytes already returned until it ends the stream,
      fails, or the connection is given up (no further calls). */
  method Deliver(context: TransferContext, calls: seq<Call>) returns (body: Bytes)
    requires context.supplied == 0 && context.offset + context.length <= |context.source|
    modifies context
    ensures body <= context.source[context.offset..context.offset + context.length]
    ensures context.supplied == |body|
    ensures |context.source| <= MAX_U64 && |calls| >= context.length && (forall i :: 0 <= i < |calls| ==> calls[i].Served())
      ==> |body| == context.length
  {
    body := [];
    var i := 0;
    while i < |calls|
      invariant 0 <= i <= |calls| && |body| <= context.length
      invariant body == context.source[context.offset..context.offset + |body|]
      invariant context.supplied == |body|
      invariant i <= |body|
    {
      var answer := context.FileReader(|body|, calls[i]);
      if !answer.Data? {
        return;
      }
      Adjacent(context.source, context.offset, |body|, |answer.bytes|);
      body := body + answer.bytes;
      i := i + 1;
    }
  }

  /** A whole response. Whatever the header, the file, the grants, the short reads and the moment the
      connection ends, what was delivered is a prefix of the selected bytes; a transfer counted as
      completed delivered all of them, and a cached representation of the file decodes to the file. */
  method Respond(header: string, ifRange: bool, file: Bytes, cached: Option<Bytes>, codec: Codec,
                 calls: seq<Call>, end: Termination)
    returns (plan: Plan, body: Bytes, outcome: Option<Outcome>)
    requires cached.Some? ==> Gunzip(codec, cached.value) == Some(file)
    ensures plan == Select(header, ifRange, file, cached)
    ensures plan.RangeError? <==> outcome == None
    ensures plan.Send? ==> plan.offset + plan.length <= |plan.source| && body <= Wanted(plan)
    ensures plan.Send? ==> (outcome == Some(Completed) <==> end == CompletedOk && body == Wanted(plan))
    ensures outcome == Some(Completed) ==> IsFile(plan, body, file, codec)
    ensures outcome == Some(Aborted) <==> plan.Send? && end == ClientAbort
    ensures outcome == Some(TimedOut) <==> plan.Send? && end == TimeoutReached
  {
    plan, body, outcome := Select(header, ifRange, file, cached), [], None;
    SelectInside(header, ifRange, file, cached);
    if plan.Send? {
      var context := new TransferContext(plan.source, plan.offset, plan.length);
      body := Deliver(context, calls);
      outcome := Some(Classify(end, context.supplied, plan.length));
      assert |body| == plan.length ==> body == Wanted(plan);
    }
  }
}
