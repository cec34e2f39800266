/** The deduplicating job queue of the gzip cache (src/compression_cache.cpp). Each method is one region
    that runs under `mutex_`; request threads, the scanning or compressing worker and `stop` may call
    them in any order their preconditions (where each thread stands) allow. */
module JobQueue {
  import opened Basics

  const MAX_QUEUED: nat := 1024

  /** Where the single worker stands between two locked regions. */
  datatype Worker = Waiting | Scanning | Compressing(key: string, scanning: bool) | Exited

  datatype Work = Leave | Build | Run(key: string)

  class Queue {
    var jobs: seq<string>
    var pending: set<string>
    var stopping: bool
    var buildRequested: bool
    var failures: nat
    var worker: Worker
    /** Every key ever accepted by `Enqueue`, and those of them handed to the worker, in order. */
    ghost var accepted: seq<string>
    ghost var started: seq<string>

    ghost function InFlight(): (keys: set<string>)
      reads this
    {
      if worker.Compressing? then {worker.key} else {}
    }

    /** Queued keys are distinct and bounded; pending is exactly the queued keys and the one being
        compressed, which is never queued at the same time; jobs leave in the order they came. */
    ghost predicate Valid()
      reads this
    {
      && |jobs| <= MAX_QUEUED
      && (forall i, j :: 0 <= i < j < |jobs| ==> jobs[i] != jobs[j])
      && KeysOf(jobs) !! InFlight()
      && pending == KeysOf(jobs) + InFlight()
      && accepted == started + jobs
      && (worker.Exited? ==> stopping)
    }

    constructor ()
      ensures Valid() && jobs == [] && pending == {} && !stopping && worker == Waiting
    {
      jobs, pending, stopping, buildRequested, failures := [], {}, false, false, 0;
      worker, accepted, started := Waiting, [], [];
    }

    /** A miss asks for a job; the order of the tests matters, since a full queue must not leave the
        key pending. */
    method Enqueue(key: string)
      requires Valid()
      modifies this`jobs, this`pending, this`accepted
      ensures Valid()
      ensures if stopping || |old(jobs)| >= MAX_QUEUED || key in old(pending)
              then jobs == old(jobs) && pending == old(pending) && accepted == old(accepted)
              else jobs == old(jobs) + [key] && pending == old(pending) + {key} && accepted == old(accepted) + [key]
    {
      if stopping || |jobs| >= MAX_QUEUED || key in pending {
        return;
      }
      pending := pending + {key};
      assert KeysOf(jobs + [key]) == KeysOf(jobs) + {key};
      jobs, accepted := jobs + [key], accepted + [key];
    }

    method RequestBuild()
      requires Valid()
      modifies this`buildRequested
      ensures Valid() && buildRequested == (old(buildRequested) || !stopping)
    {
      if stopping {
        return;
      }
      buildRequested := true;
    }

    /** The worker wakes (lines 304-316): leave, build, or take the oldest job. */
    method TakeWork() returns (work: Work)
      requires Valid() && worker.Waiting?
      requires stopping || buildRequested || jobs != []
      modifies this`jobs, this`buildRequested, this`worker, this`started
      ensures Valid() && pending == old(pending)
      ensures work == if stopping then Leave else if old(buildRequested) then Build else Run(accepted[|old(started)|])
      ensures work.Run? ==> worker == Compressing(work.key, false) && jobs == old(jobs)[1..] && started == old(started) + [work.key]
      ensures !work.Run? ==> jobs == old(jobs) && started == old(started)
      ensures work.Leave? ==> worker == Exited && buildRequested == old(buildRequested)
      ensures work.Build? ==> worker == Scanning && !buildRequested
    {
      if stopping {
        worker, work := Exited, Leave;
      } else if buildRequested {
        buildRequested, worker, work := false, Scanning, Build;
      } else {
        var key := jobs[0];
        assert jobs == [key] + jobs[1..];
        assert forall k :: k in jobs <==> k == key || k in jobs[1..];
        jobs, worker, work, started := jobs[1..], Compressing(key, false), Run(key), started + [key];
      }
    }

    /** The scan claims a key for itself (lines 355-358). A key already queued stays queued and is left
        to its job; `proceed` is false once stopping. */
    method Claim(key: string) returns (claimed: bool, proceed: bool)
      requires Valid() && worker.Scanning?
      modifies this`pending, this`worker
      ensures Valid()
      ensures claimed == (!stopping && key !in old(pending)) && proceed == !stopping
      ensures claimed ==> worker == Compressing(key, true) && pending == old(pending) + {key}
      ensures !claimed ==> worker == old(worker) && pending == old(pending)
    {
      claimed, proceed := !stopping && key !in pending, !stopping;
      if claimed {
        pending, worker := pending + {key}, Compressing(key, true);
      }
    }

    /** A compression ends (lines 322-326 and 361-366). */
    method Finish(succeeded: bool)
      requires Valid() && worker.Compressing?
      modifies this`pending, this`worker, this`failures
      ensures Valid() && pending == KeysOf(jobs) == old(pending) - {old(worker).key}
      ensures worker == if old(worker).scanning then Scanning else Waiting
      ensures failures == old(failures) + if !succeeded && !stopping then 1 else 0
    {
      pending := pending - {worker.key};
      if !succeeded && !stopping {
        failures := failures + 1;
      }
      worker := if worker.scanning then Scanning else Waiting;
    }

    /** The scan returns to the waiting loop. */
    method EndScan()
      requires Valid() && worker.Scanning?
      modifies this`worker
      ensures Valid() && worker == Waiting
    {
      worker := Waiting;
    }

    method BeginStop()
      requires Valid()
      modifies this`stopping
      ensures Valid() && stopping
    {
      stopping := true;
    }

    /** After the join (lines 153-157): nothing is in flight any more, so clearing leaks no key. */
    method FinishStop()
      requires Valid() && worker.Exited?
      modifies this`jobs, this`pending, this`buildRequested, this`accepted
      ensures Valid() && jobs == [] && pending == {} && !buildRequested
    {
      jobs, pending, buildRequested := [], {}, false;
      accepted := started;
    }
  }
}
