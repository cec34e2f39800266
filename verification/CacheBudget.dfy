/** The bookkeeping of the gzip cache (src/compression_cache.cpp): the eviction pass `maintainCache`
    over any directory order, and the conservative counters that `compress` keeps between passes. */
module CacheBudget {
  import opened Basics
  import opened Numerals
  import opened Sums

  const MAX_ENTRIES: nat := 16384
  const MIN_ARTIFACT: nat := 18

  /** A file size as the system reports it. */
  type Size = n: int | 0 <= n <= MAX_U64

  /** A `.gz` file of the cache directory. */
  datatype Artifact = Artifact(size: Size, modified: int)

  /** 64-bit addition that sticks at the top, as `addSize` and `recordArtifact` do it. */
  function AddSize(left: nat, right: nat): (r: nat)
    requires left <= MAX_U64 && right <= MAX_U64
    ensures r <= MAX_U64 && (r == left + right <==> left + right <= MAX_U64)
  {
    if right > MAX_U64 - left then MAX_U64 else left + right
  }

  /** The subtraction beside it, which sticks at zero. */
  function SubSize(total: nat, size: nat): (r: nat)
    ensures r == total - size <==> size <= total
  {
    if size >= total then 0 else total - size
  }

  ghost function Sizes(disk: map<Key, Artifact>): (w: map<Key, nat>)
    ensures w.Keys == disk.Keys
  {
    map key | key in disk :: disk[key].size
  }

  ghost function Bytes(disk: map<Key, Artifact>, keys: set<Key>): (total: nat)
    requires keys <= disk.Keys
  {
    Sum(Sizes(disk), keys)
  }

  /** A directory listing: every file once, in whatever order. */
  ghost predicate IsListing(listing: seq<Key>, keys: set<Key>) {
    && (forall i, j :: 0 <= i < j < |listing| ==> listing[i] != listing[j])
    && (forall key :: key in listing <==> key in keys)
  }

  /** `some` are among the newest of `all`: nothing left out is newer than something taken. */
  ghost predicate NewestOf(disk: map<Key, Artifact>, all: set<Key>, some: set<Key>)
    requires all <= disk.Keys
  {
    some <= all && forall e, s :: e in all && e !in some && s in some ==> disk[e].modified <= disk[s].modified
  }

  /** The top of the priority queue: an entry that no other entry is older than. */
  predicate IsOldest(disk: map<Key, Artifact>, files: set<Key>, key: Key)
    requires files <= disk.Keys
  {
    key in files && forall other :: other in files ==> disk[key].modified <= disk[other].modified
  }

  lemma {:induction false} OldestExists(disk: map<Key, Artifact>, files: set<Key>)
    requires files <= disk.Keys && files != {}
    ensures exists key :: IsOldest(disk, files, key)
    decreases |files|
  {
    var key :| key in files;
    if files == {key} {
      assert IsOldest(disk, files, key);
    } else {
      OldestExists(disk, files - {key});
      var rest :| IsOldest(disk, files - {key}, rest);
      var best := if disk[key].modified <= disk[rest].modified then key else rest;
      assert IsOldest(disk, files, best);
    }
  }

  /** The artifacts a pass may keep: marker current, time and size readable, not shorter than an
      empty gzip member. */
  ghost function Candidates(disk: map<Key, Artifact>, usable: set<Key>): (keys: set<Key>)
    ensures keys <= disk.Keys
  {
    set key | key in disk && key in usable && disk[key].size >= MIN_ARTIFACT
  }

  /** Nine tenths of the budget, rounded up. */
  function Target(maxBytes: nat): (t: nat)
    ensures 9 * maxBytes <= 10 * t < 9 * maxBytes + 10
  {
    maxBytes - maxBytes / 10
  }

  /** What pruning promises: everything stays when it fits, and otherwise the newest that bring the
      total within the 90% target, the first total to do so. */
  ghost predicate Pruned(disk: map<Key, Artifact>, kept: set<Key>, maxBytes: nat, left: set<Key>)
    requires kept <= disk.Keys
  {
    && NewestOf(disk, kept, left)
    && Bytes(disk, left) <= maxBytes
    && (Bytes(disk, kept) <= maxBytes ==> left == kept)
    && (Bytes(disk, kept) > maxBytes ==>
          Bytes(disk, left) <= Target(maxBytes) && LastOver(disk, kept, left, Target(maxBytes)))
  }

  /** Some newest artifact of those removed would, if still there, have left the total over the target. */
  ghost predicate LastOver(disk: map<Key, Artifact>, kept: set<Key>, left: set<Key>, target: nat)
    requires left <= kept <= disk.Keys
  {
    exists last :: last in kept && last !in left && NewestOf(disk, kept, left + {last})
      && Bytes(disk, left + {last}) > target
  }

  /** What a whole pass promises: `kept` are the newest candidates up to the entry limit, `left` what
      pruning leaves of them. */
  ghost predicate Evicted(disk: map<Key, Artifact>, usable: set<Key>, maxBytes: nat,
                          kept: set<Key>, left: set<Key>)
  {
    var all := Candidates(disk, usable);
    && NewestOf(disk, all, kept)
    && |kept| == (if |all| <= MAX_ENTRIES then |all| else MAX_ENTRIES)
    && Pruned(disk, kept, maxBytes, left)
  }

  /** What the scan keeps of the candidates `seen`: the newest of them, up to the limit. */
  ghost predicate Window(disk: map<Key, Artifact>, seen: set<Key>, files: set<Key>) {
    && seen <= disk.Keys && (forall key :: key in seen ==> disk[key].size >= MIN_ARTIFACT)
    && NewestOf(disk, seen, files)
    && |files| == (if |seen| <= MAX_ENTRIES then |seen| else MAX_ENTRIES)
  }

  /** How the running total stands to the entries kept: equal as long as it has never stuck, below for
      ever after; and just the sum cut to 64 bits as long as nothing has been taken out. */
  ghost predicate Counted(disk: map<Key, Artifact>, files: set<Key>, total: nat, exact: bool, unswapped: bool) {
    && files <= disk.Keys && total <= MAX_U64
    && (if exact then total == Bytes(disk, files) else total < Bytes(disk, files))
    && (unswapped ==> total == Saturate(Bytes(disk, files)))
  }

  lemma SameSizeSubset(some: set<Key>, all: set<Key>)
    requires some <= all && |some| == |all|
    ensures some == all
  {
    if some != all {
      var k :| k in all && k !in some;
      assert some <= all - {k} && |all - {k}| < |some|;
      SubsetSize(some, all - {k});
    }
  }

  lemma AdmitWithRoom(disk: map<Key, Artifact>, seen: set<Key>, files: set<Key>, key: Key)
    requires Window(disk, seen, files) && key in disk && key !in seen && |files| < MAX_ENTRIES && disk[key].size >= MIN_ARTIFACT
    ensures Window(disk, seen + {key}, files + {key} - {}) && |seen + {key}| <= MAX_ENTRIES && key !in files
    ensures Bytes(disk, files + {key} - {}) == Bytes(disk, files) + disk[key].size
  {
    SameSizeSubset(files, seen);
    SumAdd(Sizes(disk), files, key);
    assert files + {key} - {} == files + {key};
  }

  lemma SwapSum(disk: map<Key, Artifact>, files: set<Key>, key: Key, oldest: Key)
    requires files <= disk.Keys && key in disk && key !in files && oldest in files
    ensures disk[oldest].size <= Bytes(disk, files)
    ensures |files + {key} - {oldest}| == |files|
    ensures Bytes(disk, files + {key} - {oldest}) == Bytes(disk, files) - disk[oldest].size + disk[key].size
  {
    assert files + {key} - {oldest} == files - {oldest} + {key};
    SumTake(Sizes(disk), files, oldest);
    SumAdd(Sizes(disk), files - {oldest}, key);
  }

  lemma SwapNewest(disk: map<Key, Artifact>, seen: set<Key>, files: set<Key>, key: Key, oldest: Key)
    requires seen <= disk.Keys && NewestOf(disk, seen, files) && key in disk && key !in seen
    requires IsOldest(disk, files, oldest) && disk[key].modified > disk[oldest].modified
    ensures NewestOf(disk, seen + {key}, files + {key} - {oldest})
  {
  }

  lemma AdmitInstead(disk: map<Key, Artifact>, seen: set<Key>, files: set<Key>, key: Key, oldest: Key)
    requires Window(disk, seen, files) && key in disk && key !in seen && |files| >= MAX_ENTRIES && disk[key].size >= MIN_ARTIFACT
    requires IsOldest(disk, files, oldest) && disk[key].modified > disk[oldest].modified
    ensures Window(disk, seen + {key}, files + {key} - {oldest}) && |seen + {key}| > MAX_ENTRIES
    ensures disk[oldest].size < Bytes(disk, files)
    ensures Bytes(disk, files + {key} - {oldest}) == Bytes(disk, files) - disk[oldest].size + disk[key].size
  {
    SwapSum(disk, files, key, oldest);
    SwapNewest(disk, seen, files, key, oldest);
    SubsetSize(files, seen);
    OthersWeigh(disk, files, oldest);
  }

  /** Beside any entry of a larger set there is something that weighs. */
  lemma OthersWeigh(disk: map<Key, Artifact>, files: set<Key>, oldest: Key)
    requires files <= disk.Keys && oldest in files && |files| >= 2
    requires forall key :: key in files ==> disk[key].size >= MIN_ARTIFACT
    ensures disk[oldest].size < Bytes(disk, files)
  {
    var rest := files - {oldest};
    assert |rest| > 0;
    var other :| other in rest;
    SumTake(Sizes(disk), files, oldest);
    SumTake(Sizes(disk), rest, other);
  }

  lemma Refuse(disk: map<Key, Artifact>, seen: set<Key>, files: set<Key>, key: Key, oldest: Key)
    requires Window(disk, seen, files) && key in disk && key !in seen && |files| >= MAX_ENTRIES && disk[key].size >= MIN_ARTIFACT
    requires IsOldest(disk, files, oldest) && disk[key].modified <= disk[oldest].modified
    ensures Window(disk, seen + {key}, files + {key} - {key}) && |seen + {key}| > MAX_ENTRIES
    ensures files + {key} - {key} == files
  {
    SubsetSize(files, seen);
    assert files + {key} - {key} == files;
  }

  /** The top of the queue; ties may be broken either way. */
  method Top(disk: map<Key, Artifact>, files: set<Key>) returns (oldest: Key)
    requires files <= disk.Keys && files != {}
    ensures IsOldest(disk, files, oldest)
  {
    OldestExists(disk, files);
    oldest :| oldest in files && IsOldest(disk, files, oldest);
  }

  lemma CountRoom(disk: map<Key, Artifact>, files: set<Key>, total: nat, exact: bool, size: Size, files': set<Key>)
    requires Counted(disk, files, total, exact, true) && files' <= disk.Keys
    requires Bytes(disk, files') == Bytes(disk, files) + size
    ensures Counted(disk, files', AddSize(total, size), exact && Bytes(disk, files') <= MAX_U64, true)
  {
  }

  lemma CountSwap(disk: map<Key, Artifact>, files: set<Key>, total: nat, exact: bool, out: Size, size: Size, files': set<Key>)
    requires Counted(disk, files, total, exact, false) && files' <= disk.Keys && out < Bytes(disk, files)
    requires Bytes(disk, files') == Bytes(disk, files) - out + size
    ensures Counted(disk, files', AddSize(SubSize(total, out), size), exact && Bytes(disk, files') <= MAX_U64, false)
  {
  }

  /** What the scan does with one candidate (lines 681-694): keep it while there is room, else let it
      replace an oldest entry if it is newer, else give it up. */
  method Admit(disk: map<Key, Artifact>, ghost seen: set<Key>, files: set<Key>, total: nat, key: Key, ghost exact: bool)
    returns (total': nat, victim: set<Key>)
    requires Window(disk, seen, files) && Counted(disk, files, total, exact, |seen| <= MAX_ENTRIES)
    requires key in disk && key !in seen && disk[key].size >= MIN_ARTIFACT
    ensures victim <= files + {key} && Window(disk, seen + {key}, files + {key} - victim)
    ensures var files' := files + {key} - victim;
            Counted(disk, files', total', exact && Bytes(disk, files') <= MAX_U64, |seen + {key}| <= MAX_ENTRIES)
  {
    if |files| < MAX_ENTRIES {
      AdmitWithRoom(disk, seen, files, key);
      total', victim := AddSize(total, disk[key].size), {};
      CountRoom(disk, files, total, exact, disk[key].size, files + {key} - {});
    } else {
      var oldest := Top(disk, files);
      if disk[key].modified > disk[oldest].modified {
        AdmitInstead(disk, seen, files, key, oldest);
        CountSwap(disk, files, total, exact, disk[oldest].size, disk[key].size, files + {key} - {oldest});
        total', victim := AddSize(SubSize(total, disk[oldest].size), disk[key].size), {oldest};
      } else {
        Refuse(disk, seen, files, key, oldest);
        total', victim := total, {key};
      }
    }
  }

  /** The total after some entries have gone: exact if it was, else below what is left, unless nothing is. */
  ghost predicate Remains(disk: map<Key, Artifact>, files: set<Key>, total: nat, exact: bool) {
    && files <= disk.Keys && (forall key :: key in files ==> disk[key].size >= MIN_ARTIFACT)
    && (if exact || files == {} then total == Bytes(disk, files) else total < Bytes(disk, files))
  }

  lemma RemainsStep(disk: map<Key, Artifact>, files: set<Key>, total: nat, exact: bool, oldest: Key)
    requires Remains(disk, files, total, exact) && oldest in files
    ensures Remains(disk, files - {oldest}, SubSize(total, disk[oldest].size), exact)
  {
    SumTake(Sizes(disk), files, oldest);
    var rest := files - {oldest};
    if rest != {} {
      var other :| other in rest;
      SumTake(Sizes(disk), rest, other);
    }
  }

  /** After a pass the total it knows is the directory's exactly if it was exact or nothing is left. */
  lemma LeftIff(d: map<Key, Artifact>, kept: set<Key>, disk: map<Key, Artifact>, total: nat, exact: bool)
    requires Remains(d, disk.Keys, total, exact) && Submap(disk, d) && disk.Keys <= kept
    ensures |disk| == |disk.Keys| <= |kept| && total <= Bytes(disk, disk.Keys) == Bytes(d, disk.Keys)
    ensures total == Bytes(disk, disk.Keys) <==> exact || disk == map[]
  {
    SumAgree(Sizes(d), Sizes(disk), disk.Keys);
    SubsetSize(disk.Keys, kept);
    assert disk == map[] <==> disk.Keys == {};
  }

  /** A pass whose scan took nothing out: it prunes by the sum of the candidates cut to 64 bits. */
  ghost predicate Overran(disk: map<Key, Artifact>, all: set<Key>, maxBytes: nat, gone: seq<Key>, left: set<Key>, bytes: nat)
    requires all <= disk.Keys
  {
    var total := Saturate(Bytes(disk, all));
    && IsDrain(disk, all, total, Target(maxBytes), gone, left) && bytes == Drained(disk, total, gone)
    && (if total <= maxBytes then gone == [] else bytes <= Target(maxBytes))
  }

  lemma SameIfSmall(disk: map<Key, Artifact>, all: set<Key>, files: set<Key>)
    requires Window(disk, all, files)
    ensures |all| <= MAX_ENTRIES ==> files == all
  {
    if |all| <= MAX_ENTRIES {
      SameSizeSubset(files, all);
    }
  }

  /** The two halves together. */
  lemma PassEnds(d: map<Key, Artifact>, usable: set<Key>, maxBytes: nat, kept: set<Key>, sum: nat, exact: bool,
                 disk: map<Key, Artifact>, total: nat, gone: seq<Key>)
    requires Window(d, Candidates(d, usable), kept) && Counted(d, kept, sum, exact, |Candidates(d, usable)| <= MAX_ENTRIES)
    requires Submap(disk, d) && disk.Keys <= kept && Remains(d, disk.Keys, total, exact)
    requires exact ==> Pruned(d, kept, maxBytes, disk.Keys)
    requires IsDrain(d, kept, sum, Target(maxBytes), gone, disk.Keys) && total == Drained(d, sum, gone)
    requires if sum <= maxBytes then gone == [] else total <= Target(maxBytes)
    ensures |disk| <= MAX_ENTRIES && total <= Bytes(disk, disk.Keys)
    ensures exact ==> Evicted(d, usable, maxBytes, kept, disk.Keys)
    ensures total == Bytes(disk, disk.Keys) <==> exact || disk == map[]
    ensures |Candidates(d, usable)| <= MAX_ENTRIES ==> Overran(d, Candidates(d, usable), maxBytes, gone, disk.Keys, total)
  {
    LeftIff(d, kept, disk, total, exact);
    SameIfSmall(d, Candidates(d, usable), kept);
  }

  lemma NewestStep(disk: map<Key, Artifact>, kept: set<Key>, files: set<Key>, oldest: Key)
    requires kept <= disk.Keys && NewestOf(disk, kept, files) && IsOldest(disk, files, oldest)
    ensures NewestOf(disk, kept, files - {oldest})
  {
  }

  lemma KeepAll(disk: map<Key, Artifact>, kept: set<Key>)
    requires kept <= disk.Keys
    ensures NewestOf(disk, kept, kept)
  {
  }

  /** Removing an oldest entry keeps the rest the newest, and that entry witnesses that the total was
      still over the target. */
  lemma PruneStep(disk: map<Key, Artifact>, kept: set<Key>, files: set<Key>, oldest: Key, target: nat)
    requires kept <= disk.Keys && NewestOf(disk, kept, files) && IsOldest(disk, files, oldest)
    requires Bytes(disk, files) > target
    ensures NewestOf(disk, kept, files - {oldest})
    ensures Bytes(disk, files - {oldest}) == Bytes(disk, files) - disk[oldest].size
    ensures LastOver(disk, kept, files - {oldest}, target)
  {
    SumTake(Sizes(disk), files, oldest);
    assert files - {oldest} + {oldest} == files;
  }

  lemma ListingStep(listing: seq<Key>, keys: set<Key>, i: nat)
    requires IsListing(listing, keys) && i < |listing|
    ensures listing[i] in KeysOf(listing[i..])
    ensures KeysOf(listing[i + 1..]) == KeysOf(listing[i..]) - {listing[i]}
  {
    assert forall key :: key in listing[i..] <==> key == listing[i] || key in listing[i + 1..];
  }

  /** The directory when everything but `files` and the unread `rest` has been removed. */
  ghost function Without(disk: map<Key, Artifact>, files: set<Key>, rest: set<Key>): (d: map<Key, Artifact>)
    ensures Submap(d, disk)
  {
    map key | key in disk && (key in files || key in rest) :: disk[key]
  }

  lemma AdmittedStep(disk: map<Key, Artifact>, all: set<Key>, files: set<Key>, rest: set<Key>, key: Key, victim: set<Key>)
    requires key in all && key in rest && all <= disk.Keys && files <= all - rest && victim <= files + {key}
    ensures all - (rest - {key}) == all - rest + {key}
    ensures Without(disk, files, rest) - victim == Without(disk, files + {key} - victim, rest - {key})
  {
  }

  lemma IgnoredStep(disk: map<Key, Artifact>, all: set<Key>, files: set<Key>, rest: set<Key>, key: Key)
    requires key !in all && key in rest && files <= all - rest
    ensures all - (rest - {key}) == all - rest
    ensures Without(disk, files, rest) - {key} == Without(disk, files, rest - {key})
  {
  }

  ghost predicate Submap(some: map<Key, Artifact>, all: map<Key, Artifact>) {
    forall key :: key in some ==> key in all && some[key] == all[key]
  }

  /** The candidates among the entries of a listing before entry `i`. */
  ghost function SeenBy(disk: map<Key, Artifact>, usable: set<Key>, listing: seq<Key>, i: nat): (seen: set<Key>)
    requires i <= |listing|
  {
    Candidates(disk, usable) - KeysOf(listing[i..])
  }

  /** What the scan held after each entry of the listing: always the newest of the candidates so far, up
      to the limit. Where no two modification times are equal there is only one such sequence. */
  ghost predicate IsTrace(disk: map<Key, Artifact>, usable: set<Key>, listing: seq<Key>, trace: seq<set<Key>>) {
    |trace| <= |listing| + 1 && forall i :: 0 <= i < |trace| ==> Window(disk, SeenBy(disk, usable, listing, i), trace[i])
  }

  /** Whatever the scan held at any time weighed less than 2^64 bytes. */
  ghost predicate Within(disk: map<Key, Artifact>, trace: seq<set<Key>>) {
    forall i :: 0 <= i < |trace| ==> trace[i] <= disk.Keys && Bytes(disk, trace[i]) <= MAX_U64
  }

  /** The scan before entry `i` of the listing. */
  ghost predicate ScanAt(disk: map<Key, Artifact>, usable: set<Key>, listing: seq<Key>, i: nat,
                         now: map<Key, Artifact>, files: set<Key>, total: nat, trace: seq<set<Key>>)
  {
    && i <= |listing| && IsListing(listing, disk.Keys)
    && now == Without(disk, files, KeysOf(listing[i..]))
    && |trace| == i + 1 && trace[i] == files && IsTrace(disk, usable, listing, trace)
    && Counted(disk, files, total, Within(disk, trace), |SeenBy(disk, usable, listing, i)| <= MAX_ENTRIES)
  }

  lemma SeenAtEnds(disk: map<Key, Artifact>, usable: set<Key>, listing: seq<Key>)
    requires IsListing(listing, disk.Keys)
    ensures SeenBy(disk, usable, listing, 0) == {} && SeenBy(disk, usable, listing, |listing|) == Candidates(disk, usable)
    ensures KeysOf(listing[0..]) == disk.Keys && KeysOf(listing[|listing|..]) == {}
  {
    assert listing[0..] == listing;
  }

  lemma NothingHeld(disk: map<Key, Artifact>)
    ensures Window(disk, {}, {}) && Counted(disk, {}, 0, true, true)
    ensures Within(disk, [{}]) && disk == Without(disk, {}, disk.Keys)
  {
  }

  lemma ScanStarts(disk: map<Key, Artifact>, usable: set<Key>, listing: seq<Key>)
    requires IsListing(listing, disk.Keys)
    ensures ScanAt(disk, usable, listing, 0, disk, {}, 0, [{}])
  {
    SeenAtEnds(disk, usable, listing);
    NothingHeld(disk);
  }

  lemma TraceGrows(disk: map<Key, Artifact>, usable: set<Key>, listing: seq<Key>, trace: seq<set<Key>>, files: set<Key>)
    requires IsTrace(disk, usable, listing, trace) && |trace| <= |listing|
    requires Window(disk, SeenBy(disk, usable, listing, |trace|), files)
    ensures IsTrace(disk, usable, listing, trace + [files])
  {
    forall j | 0 <= j < |trace| + 1 ensures Window(disk, SeenBy(disk, usable, listing, j), (trace + [files])[j]) {
      assert j < |trace| ==> (trace + [files])[j] == trace[j];
    }
  }

  lemma WithinGrows(disk: map<Key, Artifact>, trace: seq<set<Key>>, files: set<Key>)
    requires files <= disk.Keys
    ensures Within(disk, trace + [files]) <==> Within(disk, trace) && Bytes(disk, files) <= MAX_U64
  {
    var trace' := trace + [files];
    assert trace'[|trace|] == files;
    assert forall j :: 0 <= j < |trace| ==> trace'[j] == trace[j];
  }

  lemma ScanGoesOn(disk: map<Key, Artifact>, usable: set<Key>, listing: seq<Key>, i: nat, now: map<Key, Artifact>,
                   files: set<Key>, total: nat, trace: seq<set<Key>>)
    requires i < |listing| && IsListing(listing, disk.Keys) && |trace| == i + 1 && IsTrace(disk, usable, listing, trace)
    requires now == Without(disk, files, KeysOf(listing[i + 1..]))
    requires Window(disk, SeenBy(disk, usable, listing, i + 1), files)
    requires Counted(disk, files, total, Within(disk, trace) && Bytes(disk, files) <= MAX_U64,
                     |SeenBy(disk, usable, listing, i + 1)| <= MAX_ENTRIES)
    ensures ScanAt(disk, usable, listing, i + 1, now, files, total, trace + [files])
  {
    TraceGrows(disk, usable, listing, trace, files);
    WithinGrows(disk, trace, files);
  }

  lemma ScanEnds(disk: map<Key, Artifact>, usable: set<Key>, listing: seq<Key>, now: map<Key, Artifact>,
                 files: set<Key>, total: nat, trace: seq<set<Key>>)
    requires ScanAt(disk, usable, listing, |listing|, now, files, total, trace)
    ensures Window(disk, Candidates(disk, usable), files) && now.Keys == files && Submap(now, disk)
    ensures Counted(disk, files, total, Within(disk, trace), |Candidates(disk, usable)| <= MAX_ENTRIES)
  {
    SeenAtEnds(disk, usable, listing);
    assert Window(disk, SeenBy(disk, usable, listing, |listing|), trace[|listing|]);
    HeldIsThere(disk, files);
  }

  lemma HeldIsThere(disk: map<Key, Artifact>, files: set<Key>)
    requires files <= disk.Keys
    ensures Without(disk, files, {}).Keys == files
  {
  }

  /** One directory entry: an unusable artifact is removed at once, a usable one is admitted. */
  method ScanEntry(disk: map<Key, Artifact>, usable: set<Key>, listing: seq<Key>, i: nat, now: map<Key, Artifact>,
                   files: set<Key>, total: nat, ghost trace: seq<set<Key>>)
    returns (now': map<Key, Artifact>, files': set<Key>, total': nat)
    requires ScanAt(disk, usable, listing, i, now, files, total, trace) && i < |listing|
    ensures ScanAt(disk, usable, listing, i + 1, now', files', total', trace + [files'])
  {
    var key := listing[i];
    ghost var all, rest := Candidates(disk, usable), KeysOf(listing[i..]);
    ListingStep(listing, disk.Keys, i);
    assert Window(disk, SeenBy(disk, usable, listing, i), trace[i]);
    if key in usable && disk[key].size >= MIN_ARTIFACT {
      var victim;
      total', victim := Admit(disk, all - rest, files, total, key, Within(disk, trace));
      files' := files + {key} - victim;
      AdmittedStep(disk, all, files, rest, key, victim);
      now' := now - victim;
    } else {
      files', total', now' := files, total, now - {key};
      IgnoredStep(disk, all, files, rest, key);
      assert Within(disk, trace) ==> Bytes(disk, trace[i]) <= MAX_U64;
    }
    ScanGoesOn(disk, usable, listing, i, now', files', total', trace);
  }

  // ---------------------------------------------------------------- when the total is exact

  /** If all candidates together weigh less than 2^64 bytes, so does whatever the scan holds. */
  lemma FitsWithin(disk: map<Key, Artifact>, usable: set<Key>, listing: seq<Key>, trace: seq<set<Key>>)
    requires IsTrace(disk, usable, listing, trace) && Bytes(disk, Candidates(disk, usable)) <= MAX_U64
    ensures Within(disk, trace)
  {
    forall i | 0 <= i < |trace| ensures trace[i] <= disk.Keys && Bytes(disk, trace[i]) <= MAX_U64 {
      assert Window(disk, SeenBy(disk, usable, listing, i), trace[i]);
      SumMonotone(Sizes(disk), trace[i], Candidates(disk, usable));
    }
  }

  /** With no more candidates than entries allowed, nothing is taken out, and the two are the same. */
  lemma WithinIff(disk: map<Key, Artifact>, usable: set<Key>, listing: seq<Key>, trace: seq<set<Key>>)
    requires IsTrace(disk, usable, listing, trace) && |trace| == |listing| + 1
    requires |Candidates(disk, usable)| <= MAX_ENTRIES
    ensures Within(disk, trace) <==> Bytes(disk, Candidates(disk, usable)) <= MAX_U64
  {
    var n, all := |listing|, Candidates(disk, usable);
    assert SeenBy(disk, usable, listing, n) == all;
    assert Window(disk, all, trace[n]);
    SameSizeSubset(trace[n], all);
    if Bytes(disk, all) <= MAX_U64 {
      FitsWithin(disk, usable, listing, trace);
    }
  }

  ghost function SizeAt(disk: map<Key, Artifact>, key: Key): (size: nat) { if key in disk then disk[key].size else 0 }

  /** What is left of a total when entries are taken out one by one. */
  ghost function Drained(disk: map<Key, Artifact>, total: nat, gone: seq<Key>): (rest: nat)
    decreases |gone|
  {
    if gone == [] then total
    else SubSize(Drained(disk, total, gone[..|gone| - 1]), SizeAt(disk, gone[|gone| - 1]))
  }

  /** The entries pruning took out, oldest first: it went on while the total it knew was over the target. */
  ghost predicate IsDrain(disk: map<Key, Artifact>, kept: set<Key>, total: nat, target: nat, gone: seq<Key>, left: set<Key>) {
    && IsListing(gone, kept - left) && kept <= disk.Keys && left <= kept
    && forall i :: 0 <= i < |gone| ==> Drained(disk, total, gone[..i]) > target
  }

  lemma ListingGrows(gone: seq<Key>, keys: set<Key>, key: Key)
    requires IsListing(gone, keys) && key !in keys
    ensures IsListing(gone + [key], keys + {key})
  {
    assert forall k :: k in gone + [key] <==> k in gone || k == key;
  }

  lemma DrainStep(disk: map<Key, Artifact>, kept: set<Key>, total: nat, target: nat, gone: seq<Key>, left: set<Key>, key: Key)
    requires IsDrain(disk, kept, total, target, gone, left) && key in left && Drained(disk, total, gone) > target
    ensures IsDrain(disk, kept, total, target, gone + [key], left - {key})
    ensures Drained(disk, total, gone + [key]) == SubSize(Drained(disk, total, gone), disk[key].size)
  {
    var gone' := gone + [key];
    assert gone'[..|gone|] == gone;
    ListingGrows(gone, kept - left, key);
    assert kept - left + {key} == kept - (left - {key});
    forall i | 0 <= i < |gone'| ensures Drained(disk, total, gone'[..i]) > target {
      assert gone'[..i] == gone[..i];
      assert i == |gone| ==> gone[..i] == gone;
    }
  }

  lemma ReplaceSum(disk: map<Key, Artifact>, key: Key, artifact: Artifact)
    ensures var d := disk[key := artifact];
            |d| <= |disk| + 1 && Bytes(d, d.Keys) <= Bytes(disk, disk.Keys) + artifact.size
  {
    var d := disk[key := artifact];
    var rest := disk.Keys - {key};
    assert d.Keys == rest + {key} && |d| == |d.Keys|;
    SumAdd(Sizes(d), rest, key);
    SumAgree(Sizes(d), Sizes(disk), rest);
    SumMonotone(Sizes(disk), rest, disk.Keys);
    SubsetSize(rest, disk.Keys);
  }

  lemma RemoveSum(disk: map<Key, Artifact>, key: Key)
    ensures var d := disk - {key};
            && |d| == (if key in disk then |disk| - 1 else |disk|)
            && Bytes(d, d.Keys) == Bytes(disk, disk.Keys) - (if key in disk then disk[key].size else 0)
  {
    var d := disk - {key};
    assert |d| == |d.Keys| && |disk| == |disk.Keys|;
    if key in disk {
      var rest := disk.Keys - {key};
      assert d.Keys == rest;
      SumTake(Sizes(disk), disk.Keys, key);
      SumAgree(Sizes(d), Sizes(disk), rest);
    } else {
      assert d == disk;
    }
  }

  class CompressionCache {
    const maxBytes: nat
    var disk: map<Key, Artifact>
    var entries: nat
    var bytes: nat

    constructor (maxBytes: nat, found: map<Key, Artifact>)
      ensures this.maxBytes == maxBytes && disk == found && entries == 0 && bytes == 0
    {
      this.maxBytes := maxBytes;
      disk, entries, bytes := found, 0, 0;
    }

    /** The counters never under-count the directory and never exceed the limits. */
    ghost predicate Budgeted()
      reads this
    {
      && |disk| <= entries <= MAX_ENTRIES
      && Bytes(disk, disk.Keys) <= bytes <= maxBytes
    }

    /** The scanning half of a pass (lines 635-695) up to entry `stopAt`, where stopping is noticed. */
    method Scan(listing: seq<Key>, usable: set<Key>, stopAt: nat)
      returns (files: set<Key>, total: nat, finished: bool, ghost trace: seq<set<Key>>)
      requires IsListing(listing, disk.Keys)
      modifies this`disk
      ensures finished <==> stopAt >= |listing|
      ensures Submap(disk, old(disk))
      ensures finished ==> ScanAt(old(disk), usable, listing, |listing|, disk, files, total, trace)
    {
      var d := disk;
      files, total, finished, trace := {}, 0, true, [{}];
      var i := 0;
      ScanStarts(d, usable, listing);
      while i < |listing|
        invariant 0 <= i <= |listing| && i <= stopAt && finished
        invariant ScanAt(d, usable, listing, i, disk, files, total, trace)
      {
        if i == stopAt {
          finished := false;
          return;
        }
        var now;
        now, files, total := ScanEntry(d, usable, listing, i, disk, files, total, trace);
        disk, trace, i := now, trace + [files], i + 1;
      }
    }

    /** The pruning half (lines 697-705): over budget, the oldest entries go until the total it knows
        meets the target. With an exact total that is what `Pruned` promises; a total that had stuck stays
        below what is there as long as anything is. */
    method Prune(ghost d: map<Key, Artifact>, kept: set<Key>, sum: nat, ghost exact: bool)
      returns (total: nat, ghost gone: seq<Key>)
      requires Counted(d, kept, sum, exact, false) && (forall key :: key in kept ==> d[key].size >= MIN_ARTIFACT)
      requires disk.Keys == kept && Submap(disk, d)
      modifies this`disk
      ensures Submap(disk, d) && disk.Keys <= kept && NewestOf(d, kept, disk.Keys) && total <= maxBytes
      ensures Remains(d, disk.Keys, total, exact)
      ensures exact ==> Pruned(d, kept, maxBytes, disk.Keys)
      ensures IsDrain(d, kept, sum, Target(maxBytes), gone, disk.Keys) && total == Drained(d, sum, gone)
      ensures if sum <= maxBytes then gone == [] else total <= Target(maxBytes)
    {
      total, gone := sum, [];
      var files := kept;
      KeepAll(d, kept);
      if total > maxBytes {
        var target := Target(maxBytes);
        while total > target && files != {}
          invariant files <= kept && disk.Keys == files && Submap(disk, d)
          invariant Remains(d, files, total, exact) && total <= MAX_U64
          invariant NewestOf(d, kept, files)
          invariant exact && total <= target ==> LastOver(d, kept, files, target)
          invariant IsDrain(d, kept, sum, target, gone, files) && total == Drained(d, sum, gone)
        {
          var oldest := Top(disk, files);
          DrainStep(d, kept, sum, target, gone, files, oldest);
          RemainsStep(d, files, total, exact, oldest);
          NewestStep(d, kept, files, oldest);
          if exact {
            PruneStep(d, kept, files, oldest, target);
          }
          files, gone := files - {oldest}, gone + [oldest];
          total := SubSize(total, disk[oldest].size);
          disk := disk - {oldest};
        }
      }
    }

    /** A whole pass over the directory in the order of `listing`. It does what `Evicted` promises, and the
        counters it leaves are the directory's, if and only if what the scan held never weighed 2^64 bytes
        or more (or nothing is left at all). A pass that notices stopping leaves the counters as they were. */
    method MaintainCache(listing: seq<Key>, usable: set<Key>, stopAt: nat)
      returns (finished: bool, ghost trace: seq<set<Key>>, ghost gone: seq<Key>)
      requires IsListing(listing, disk.Keys)
      modifies this
      ensures Submap(disk, old(disk))
      ensures finished <==> stopAt >= |listing|
      ensures finished ==> |trace| == |listing| + 1 && IsTrace(old(disk), usable, listing, trace)
      ensures finished ==> entries == |disk| <= MAX_ENTRIES && bytes <= maxBytes
      ensures finished && Within(old(disk), trace) ==> Evicted(old(disk), usable, maxBytes, trace[|listing|], disk.Keys)
      ensures finished ==> (bytes == Bytes(disk, disk.Keys) <==> Within(old(disk), trace) || disk == map[])
      ensures finished ==> (Budgeted() <==> Within(old(disk), trace) || disk == map[])
      ensures finished && |Candidates(old(disk), usable)| <= MAX_ENTRIES ==>
        Overran(old(disk), Candidates(old(disk), usable), maxBytes, gone, disk.Keys, bytes)
      ensures !finished ==> entries == old(entries) && bytes == old(bytes)
    {
      ghost var d := disk;
      var files, total;
      files, total, finished, trace := Scan(listing, usable, stopAt);
      gone := [];
      if finished {
        gone := FinishScanned(d, listing, usable, files, total, trace);
      }
    }

    method FinishScanned(ghost d: map<Key, Artifact>, ghost listing: seq<Key>, ghost usable: set<Key>,
                         kept: set<Key>, sum: nat, ghost trace: seq<set<Key>>)
      returns (ghost gone: seq<Key>)
      requires ScanAt(d, usable, listing, |listing|, disk, kept, sum, trace)
      modifies this
      ensures Submap(disk, d) && entries == |disk| <= MAX_ENTRIES && bytes <= maxBytes
      ensures Within(d, trace) ==> Evicted(d, usable, maxBytes, kept, disk.Keys)
      ensures bytes <= Bytes(disk, disk.Keys) && (bytes == Bytes(disk, disk.Keys) <==> Within(d, trace) || disk == map[])
      ensures |Candidates(d, usable)| <= MAX_ENTRIES ==>
        Overran(d, Candidates(d, usable), maxBytes, gone, disk.Keys, bytes)
    {
      ScanEnds(d, usable, listing, disk, kept, sum, trace);
      gone := FinishPass(d, usable, kept, sum, Within(d, trace));
    }

    /** The part of a pass after the scan (lines 697-707). */
    method FinishPass(ghost d: map<Key, Artifact>, ghost usable: set<Key>, kept: set<Key>, sum: nat, ghost exact: bool)
      returns (ghost gone: seq<Key>)
      requires Window(d, Candidates(d, usable), kept) && disk.Keys == kept && Submap(disk, d)
      requires Counted(d, kept, sum, exact, |Candidates(d, usable)| <= MAX_ENTRIES)
      modifies this
      ensures Submap(disk, d) && entries == |disk| <= MAX_ENTRIES && bytes <= maxBytes
      ensures exact ==> Evicted(d, usable, maxBytes, kept, disk.Keys)
      ensures bytes <= Bytes(disk, disk.Keys) && (bytes == Bytes(disk, disk.Keys) <==> exact || disk == map[])
      ensures |Candidates(d, usable)| <= MAX_ENTRIES ==>
        Overran(d, Candidates(d, usable), maxBytes, gone, disk.Keys, bytes)
    {
      var total;
      total, gone := Prune(d, kept, sum, exact);
      entries, bytes := |disk|, total;
      PassEnds(d, usable, maxBytes, kept, sum, exact, disk, total, gone);
    }

    /** `start`: nothing is counted yet, and the worker's first act is a pass over what it finds. From a
        directory of less than 2^64 bytes of usable artifacts the counters are right from then on. */
    static method Start(maxBytes: nat, found: map<Key, Artifact>, listing: seq<Key>, usable: set<Key>, stopAt: nat)
      returns (cache: CompressionCache, finished: bool, ghost trace: seq<set<Key>>, ghost gone: seq<Key>)
      requires IsListing(listing, found.Keys)
      ensures fresh(cache) && cache.maxBytes == maxBytes && Submap(cache.disk, found)
      ensures finished <==> stopAt >= |listing|
      ensures finished && Bytes(found, Candidates(found, usable)) <= MAX_U64 ==>
        && cache.Budgeted() && |trace| == |listing| + 1
        && Evicted(found, usable, maxBytes, trace[|listing|], cache.disk.Keys)
      ensures finished ==> cache.entries == |cache.disk.Keys|
      ensures finished && |Candidates(found, usable)| <= MAX_ENTRIES ==>
        Overran(found, Candidates(found, usable), maxBytes, gone, cache.disk.Keys, cache.bytes)
    {
      cache := new CompressionCache(maxBytes, found);
      finished, trace, gone := cache.MaintainCache(listing, usable, stopAt);
      if finished && Bytes(found, Candidates(found, usable)) <= MAX_U64 {
        FitsWithin(found, usable, listing, trace);
      }
    }

    /** Whether one more artifact of this size calls for a pass. */
    predicate Overfull(size: nat)
      reads this
    {
      entries + 1 > MAX_ENTRIES || bytes + size > maxBytes
    }

    /** The counters after a publication (lines 587-597), and the pass they may call for. */
    method RecordArtifact(size: nat, listing: seq<Key>, usable: set<Key>, stopAt: nat)
      returns (finished: bool, ghost kept: set<Key>)
      requires size <= MAX_U64 && maxBytes < MAX_U64
      requires entries <= MAX_ENTRIES && bytes <= maxBytes
      requires IsListing(listing, disk.Keys) && Bytes(disk, disk.Keys) <= MAX_U64
      requires |disk| <= entries + 1 && Bytes(disk, disk.Keys) <= bytes + size
      modifies this
      ensures finished <==> !old(Overfull(size)) || stopAt >= |listing|
      ensures finished ==> Budgeted()
      ensures !old(Overfull(size)) ==>
        disk == old(disk) && entries == old(entries) + 1 && bytes == old(bytes) + size
      ensures old(Overfull(size)) && finished ==>
        && Evicted(old(disk), usable, maxBytes, kept, disk.Keys) && Submap(disk, old(disk))
        && entries == |disk| && bytes == Bytes(disk, disk.Keys)
    {
      entries, bytes := AddSize(entries, 1), AddSize(bytes, size);
      finished, kept := true, {};
      if entries > MAX_ENTRIES || bytes > maxBytes {
        ghost var d, trace, gone := disk, [], [];
        finished, trace, gone := MaintainCache(listing, usable, stopAt);
        if finished {
          SumMonotone(Sizes(d), Candidates(d, usable), d.Keys);
          FitsWithin(d, usable, listing, trace);
          kept := trace[|listing|];
        }
      }
    }

    /** A successful publication (lines 571-584) on a working filesystem: the artifact appears under its
        key, replacing whatever was there. Counters that did not under-count before do not after. */
    method Publish(key: Key, artifact: Artifact, listing: seq<Key>, usable: set<Key>, stopAt: nat)
      returns (finished: bool, ghost kept: set<Key>)
      requires Budgeted() && artifact.size <= maxBytes < U64 / 2
      requires IsListing(listing, disk.Keys + {key})
      modifies this
      ensures finished <==> !old(Overfull(artifact.size)) || stopAt >= |listing|
      ensures finished ==> Budgeted()
      ensures !old(Overfull(artifact.size)) ==> disk == old(disk)[key := artifact]
      ensures old(Overfull(artifact.size)) && finished ==>
        && Evicted(old(disk)[key := artifact], usable, maxBytes, kept, disk.Keys)
        && Submap(disk, old(disk)[key := artifact])
    {
      ReplaceSum(disk, key, artifact);
      disk := disk[key := artifact];
      finished, kept := RecordArtifact(artifact.size, listing, usable, stopAt);
    }

    /** The skip branch (lines 528-557): the artifact of the key goes and the counters follow. `marked`
        tells whether the skip marker could be written; if not, the counters are left alone. */
    method Discard(key: Key, marked: bool)
      requires Budgeted()
      modifies this
      ensures Budgeted() && disk == old(disk) - {key}
      ensures var removed := if key in old(disk) then old(disk)[key].size else 0;
        if marked && removed != 0
        then entries == old(entries) - 1 && bytes == old(bytes) - removed
        else entries == old(entries) && bytes == old(bytes)
    {
      var removed := if key in disk then disk[key].size else 0;
      RemoveSum(disk, key);
      disk := disk - {key};
      if marked && removed != 0 {
        entries, bytes := SubSize(entries, 1), SubSize(bytes, removed);
      }
    }
  }

  // ---------------------------------------------------------------- beyond 2^64 bytes

  /** The largest size a file can have. */
  const LARGEST: Size := 0x7FFF_FFFF_FFFF_FFFF

  /** Three artifacts of the largest size. */
  ghost predicate ThreeLargest(found: map<Key, Artifact>) {
    |found| == 3 && forall key :: key in found ==> found[key].size == LARGEST
  }

  lemma {:induction false} EqualSizes(disk: map<Key, Artifact>, keys: set<Key>)
    requires keys <= disk.Keys && forall key :: key in disk ==> disk[key].size == LARGEST
    ensures Bytes(disk, keys) == |keys| * LARGEST
    decreases |keys|
  {
    if keys != {} {
      var k :| k in keys;
      SumTake(Sizes(disk), keys, k);
      EqualSizes(disk, keys - {k});
    }
  }

  lemma {:induction false} ListingSize(listing: seq<Key>, keys: set<Key>)
    requires IsListing(listing, keys)
    ensures |listing| == |keys|
    decreases |listing|
  {
    if listing == [] {
      assert keys == {};
    } else {
      var front, last := listing[..|listing| - 1], listing[|listing| - 1];
      assert forall k :: k in listing <==> k in front || k == last;
      ListingSize(front, keys - {last});
      assert last in keys;
    }
  }

  /** Pruning stops after two of them: it believes that one byte is left. */
  lemma TwoGo(disk: map<Key, Artifact>, all: set<Key>, target: nat, gone: seq<Key>, left: set<Key>)
    requires all <= disk.Keys && |all| == 3 && forall key :: key in disk ==> disk[key].size == LARGEST
    requires IsDrain(disk, all, MAX_U64, target, gone, left) && 0 < target <= LARGEST
    requires Drained(disk, MAX_U64, gone) <= target
    ensures |left| == 1 && Drained(disk, MAX_U64, gone) == 1
  {
    ListingSize(gone, all - left);
    assert |all - left| == 3 - |left|;
    forall i | 0 <= i < |gone| ensures gone[i] in disk {
      assert gone[i] in gone;
    }
    DrainedTwo(disk, gone);
  }

  lemma DrainedTwo(disk: map<Key, Artifact>, gone: seq<Key>)
    requires forall i :: 0 <= i < |gone| ==> gone[i] in disk && disk[gone[i]].size == LARGEST
    ensures |gone| >= 0 ==> Drained(disk, MAX_U64, gone[..0]) == MAX_U64
    ensures |gone| >= 1 ==> Drained(disk, MAX_U64, gone[..1]) == LARGEST + 1
    ensures |gone| >= 2 ==> Drained(disk, MAX_U64, gone[..2]) == 1
    ensures gone[..|gone|] == gone
  {
    assert gone[..|gone|] == gone;
    if |gone| >= 1 {
      assert gone[..1][..0] == gone[..0];
      if |gone| >= 2 {
        assert gone[..2][..1] == gone[..1];
      }
    }
  }

  /** The condition of `MaintainCache` is no formality: over a directory of three artifacts of the largest
      size, in any order and with any budget below that size, a whole pass ends with one of them left, far
      over the budget, and a byte count of one. */
  method PassLeavesTooMuch(maxBytes: nat, found: map<Key, Artifact>, listing: seq<Key>) returns (cache: CompressionCache)
    requires ThreeLargest(found) && IsListing(listing, found.Keys) && 0 < maxBytes < LARGEST
    ensures cache.bytes == 1 && cache.entries == 1
    ensures Bytes(cache.disk, cache.disk.Keys) == LARGEST > cache.maxBytes == maxBytes
  {
    ghost var all := Candidates(found, found.Keys);
    assert all == found.Keys && |all| == 3;
    EqualSizes(found, all);
    var finished;
    ghost var trace, gone;
    cache, finished, trace, gone := CompressionCache.Start(maxBytes, found, listing, found.Keys, |listing|);
    TwoGo(found, all, Target(maxBytes), gone, cache.disk.Keys);
    EqualSizes(cache.disk, cache.disk.Keys);
  }
}
