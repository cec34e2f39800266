/** From a run of the cache to the bytes a client receives: what `serveFile` sends when a lookup has hit. */
module EndToEnd {
  import opened Basics
  import opened Gzip
  import opened PublishProtocol
  import opened Transfer

  /** A request thread has opened its hit after any run of the cache in which no source returned falsely,
      and answers with it. Whatever the header, the grants, the short reads and the moment the connection
      ends, a completed body is the source version asked for: compressed, a range of it, or as it is. */
  method ServeHit(w: World, ghost hash: string -> Key, ghost s: PublishProtocol.State, ghost events: seq<PublishProtocol.Event>,
                  ghost thread: nat, hit: Lookup, header: string, ifRange: bool, calls: seq<Call>, end: Termination)
    returns (plan: Plan, body: Bytes, outcome: Option<Transfer.Outcome>)
    requires IsCacheWorld(w, hash) && NoCollision(w, hash) && Init(w, s) && TrueReturns(w, s, events)
    requires thread in Run(w, s, events).lookups && hit == Run(w, s, events).lookups[thread] && hit.Sending?
    ensures hit.id in w.content && plan == Select(header, ifRange, w.content[hit.id], Some(hit.data))
    ensures plan.Send? ==> plan.offset + plan.length <= |plan.source| && body <= Wanted(plan)
    ensures outcome == Some(Completed) ==> hit.id in w.content && IsFile(plan, body, w.content[hit.id], w.codec)
  {
    ServedContentIsSource(w, hash, s, events, thread);
    var file := w.content[hit.id];
    plan, body, outcome := Respond(header, ifRange, file, Some(hit.data), w.codec, calls, end);
  }
}
