/** The per-IP bucket table of the bandwidth limiter (src/bandwidth_limiter.cpp): weak references to
    buckets that the leases of running transfers keep alive, bounded to 256 addresses, with one shared
    overflow bucket behind it. Buckets are named by numbers that are never reused. */
module ClientTable {
  import opened Basics

  const MAX_TRACKED: nat := 256
  const CLEANUP_EVERY: nat := 64

  /** A lease held by a transfer: the address it was attached for, its bucket, and the configuration
      epoch it was issued in. */
  datatype Lease = Lease(ip: Ip, client: nat, epoch: nat)

  /** A weak reference has expired when no outstanding lease has its bucket. */
  predicate Expired(leases: map<nat, Lease>, client: nat) {
    forall l :: l in leases ==> leases[l].client != client
  }

  /** The entries whose buckets are alive. */
  function Alive(clients: map<Ip, nat>, leases: map<nat, Lease>): (r: map<Ip, nat>)
    ensures |r| <= |clients|
  {
    var r := map ip | ip in clients && !Expired(leases, clients[ip]) :: clients[ip];
    AliveSize(r, clients);
    r
  }

  lemma AliveSize(some: map<Ip, nat>, all: map<Ip, nat>)
    requires some.Keys <= all.Keys
    ensures |some| <= |all|
  {
    assert |some| == |some.Keys| && |all| == |all.Keys|;
    SubsetSize(some.Keys, all.Keys);
  }

  lemma AliveAgain(clients: map<Ip, nat>, leases: map<nat, Lease>)
    ensures Alive(Alive(clients, leases), leases) == Alive(clients, leases)
  {
  }

  /** The table after the clean-up that every 64th attachment makes. */
  function Swept(clients: map<Ip, nat>, leases: map<nat, Lease>, attachments: nat): (r: map<Ip, nat>) {
    if attachments + 1 >= CLEANUP_EVERY then Alive(clients, leases) else clients
  }

  /** The table after the clean-up that a full one makes. */
  function Eased(clients: map<Ip, nat>, leases: map<nat, Lease>): (r: map<Ip, nat>) {
    if |clients| >= MAX_TRACKED then Alive(clients, leases) else clients
  }

  predicate HasLive(clients: map<Ip, nat>, leases: map<nat, Lease>, ip: Ip) {
    ip in clients && !Expired(leases, clients[ip])
  }

  /** What an address without a live bucket gets: a new one (`next`, a number no bucket has had) if there is
      room in the table, else the one overflow bucket, and that only when the whole table is alive. */
  predicate Placed(before: map<Ip, nat>, leases: map<nat, Lease>, had: Option<nat>, next: nat, ip: Ip,
                   client: nat, after: map<Ip, nat>, overflow: Option<nat>)
  {
    var eased := Eased(before, leases);
    if |eased| < MAX_TRACKED then client == next && after == eased[ip := client] && overflow == had
    else
      && after == eased == Alive(eased, leases) && ip !in after
      && overflow == Some(client) && client == (if had.Some? then had.value else next)
  }

  /** What `attach` chooses for an address: the live bucket it has, else what it is placed in. */
  predicate Chosen(before: map<Ip, nat>, leases: map<nat, Lease>, attachments: nat, had: Option<nat>, next: nat, ip: Ip,
                   client: nat, after: map<Ip, nat>, overflow: Option<nat>)
  {
    var swept := Swept(before, leases, attachments);
    if HasLive(before, leases, ip) then client == before[ip] && after == swept && overflow == had
    else Placed(swept, leases, had, next, ip, client, after, overflow)
  }

  lemma SweptLive(clients: map<Ip, nat>, leases: map<nat, Lease>, attachments: nat, ip: Ip)
    ensures var swept := Swept(clients, leases, attachments);
            (HasLive(swept, leases, ip) <==> HasLive(clients, leases, ip)) && (ip in swept ==> ip in clients && swept[ip] == clients[ip])
  {
  }

  predicate IsTracked(l: Lease, epoch: nat, overflow: Option<nat>) { l.epoch == epoch && overflow != Some(l.client) }

  /** The entry of an address that a lease of it relies on. */
  predicate Entered(clients: map<Ip, nat>, ip: Ip, client: nat) { ip in clients && clients[ip] == client }

  /** No two addresses have the same bucket. */
  ghost predicate Distinct(clients: map<Ip, nat>) {
    forall a, b :: a in clients && b in clients && clients[a] == clients[b] ==> a == b
  }

  /** The table is bounded, every tracked lease has its bucket in it, no two addresses share one, and the
      numbers still to be given have never been. */
  ghost predicate TableOk(clients: map<Ip, nat>, overflow: Option<nat>, leases: map<nat, Lease>,
                          nextLease: nat, nextClient: nat, epoch: nat)
  {
    && |clients| <= MAX_TRACKED && Distinct(clients)
    && (forall l :: l in leases && IsTracked(leases[l], epoch, overflow) ==> Entered(clients, leases[l].ip, leases[l].client))
    && (forall l :: l in leases ==> l < nextLease && leases[l].client < nextClient && leases[l].epoch <= epoch)
    && (forall ip :: ip in clients ==> clients[ip] < nextClient && overflow != Some(clients[ip]))
    && (overflow.Some? ==> overflow.value < nextClient)
  }

  lemma CleanedOk(clients: map<Ip, nat>, overflow: Option<nat>, leases: map<nat, Lease>, nextLease: nat, nextClient: nat, epoch: nat)
    requires TableOk(clients, overflow, leases, nextLease, nextClient, epoch)
    ensures TableOk(Alive(clients, leases), overflow, leases, nextLease, nextClient, epoch)
  {
  }

  lemma EnteredOk(clients: map<Ip, nat>, overflow: Option<nat>, leases: map<nat, Lease>, nextLease: nat, nextClient: nat,
                  epoch: nat, ip: Ip)
    requires TableOk(clients, overflow, leases, nextLease, nextClient, epoch)
    requires |clients| < MAX_TRACKED && (ip in clients ==> Expired(leases, clients[ip]))
    ensures TableOk(clients[ip := nextClient], overflow, leases, nextLease, nextClient + 1, epoch)
  {
    GrowSize(clients, ip, nextClient);
  }

  lemma LeasedOk(clients: map<Ip, nat>, overflow: Option<nat>, leases: map<nat, Lease>, nextLease: nat, nextClient: nat,
                 epoch: nat, ip: Ip, client: nat)
    requires TableOk(clients, overflow, leases, nextLease, nextClient, epoch)
    requires client < nextClient && (overflow == Some(client) || Entered(clients, ip, client))
    ensures TableOk(clients, overflow, leases[nextLease := Lease(ip, client, epoch)], nextLease + 1, nextClient, epoch)
  {
  }

  /** The table while a clean-up still has to look at `todo`. */
  function AliveBut(clients: map<Ip, nat>, leases: map<nat, Lease>, todo: set<Ip>): (r: map<Ip, nat>) {
    map ip | ip in clients && (ip in todo || !Expired(leases, clients[ip])) :: clients[ip]
  }

  lemma AliveEnds(clients: map<Ip, nat>, leases: map<nat, Lease>)
    ensures AliveBut(clients, leases, clients.Keys) == clients && AliveBut(clients, leases, {}) == Alive(clients, leases)
  {
  }

  lemma AliveStep(clients: map<Ip, nat>, leases: map<nat, Lease>, todo: set<Ip>, ip: Ip)
    requires ip in todo && ip in clients
    ensures var r := AliveBut(clients, leases, todo);
            && ip in r && r[ip] == clients[ip]
            && AliveBut(clients, leases, todo - {ip}) == if Expired(leases, clients[ip]) then r - {ip} else r
  {
  }

  class Table {
    var perIpRate: nat
    var clients: map<Ip, nat>
    var overflow: Option<nat>
    var attachments: nat
    var leases: map<nat, Lease>
    var nextLease: nat
    var nextClient: nat
    var epoch: nat

    /** The lease is of the current configuration and not of the overflow bucket. */
    predicate Tracked(l: Lease)
      reads this`epoch, this`overflow
    {
      IsTracked(l, epoch, overflow)
    }

    ghost predicate Valid()
      reads this
    {
      TableOk(clients, overflow, leases, nextLease, nextClient, epoch)
    }

    constructor (rate: nat)
      ensures Valid() && perIpRate == rate && clients == map[] && leases == map[] && overflow == None
    {
      perIpRate, clients, overflow, attachments := rate, map[], None, 0;
      leases, nextLease, nextClient, epoch := map[], 0, 0, 0;
    }

    /** `configure` stops first: the table and the overflow bucket go, outstanding leases stay behind. */
    method Reconfigure(rate: nat)
      requires Valid()
      modifies this`perIpRate, this`clients, this`overflow, this`attachments, this`epoch
      ensures Valid() && perIpRate == rate && clients == map[] && overflow == None && attachments == 0
      ensures epoch == old(epoch) + 1
    {
      clients, overflow, attachments, perIpRate, epoch := map[], None, 0, rate, epoch + 1;
    }

    method CleanupClients()
      requires Valid()
      modifies this`clients, this`attachments
      ensures Valid() && attachments == 0 && clients == Alive(old(clients), leases)
    {
      CleanedOk(clients, overflow, leases, nextLease, nextClient, epoch);
      EraseExpired();
      attachments := 0;
    }

    /** Erase the expired entries, one by one. */
    method EraseExpired()
      modifies this`clients
      ensures clients == Alive(old(clients), leases)
    {
      ghost var whole := clients;
      var todo := clients.Keys;
      AliveEnds(whole, leases);
      while todo != {}
        invariant todo <= whole.Keys && clients == AliveBut(whole, leases, todo)
        decreases |todo|
      {
        var ip :| ip in todo;
        AliveStep(whole, leases, todo, ip);
        if Expired(leases, clients[ip]) {
          clients := clients - {ip};
        }
        todo := todo - {ip};
      }
    }

    /** A transfer ends and gives up its lease. */
    method Drop(l: nat)
      requires Valid() && l in leases
      modifies this`leases
      ensures Valid() && leases == old(leases) - {l}
    {
      leases := leases - {l};
    }

    /** The overflow bucket is created on first use; the caller has found the table full. */
    method UseOverflow() returns (client: nat)
      requires Valid()
      modifies this`overflow, this`nextClient
      ensures Valid() && overflow == Some(client)
      ensures old(overflow).Some? ==> overflow == old(overflow) && nextClient == old(nextClient)
      ensures old(overflow).None? ==> client == old(nextClient) && nextClient == client + 1
    {
      if overflow.None? {
        overflow, nextClient := Some(nextClient), nextClient + 1;
      }
      client := overflow.value;
    }

    /** A new bucket for an address that has no live one. */
    method Enter(ip: Ip) returns (client: nat)
      requires Valid() && |clients| < MAX_TRACKED && (ip in clients ==> Expired(leases, clients[ip]))
      modifies this`clients, this`nextClient
      ensures Valid() && client == old(nextClient) && nextClient == client + 1 && clients == old(clients)[ip := client]
    {
      EnteredOk(clients, overflow, leases, nextLease, nextClient, epoch, ip);
      client := nextClient;
      nextClient := nextClient + 1;
      clients := clients[ip := client];
    }

    /** A bucket for an address without a live one (lines 95-107): the overflow bucket only when the
        whole table is alive. */
    method Place(ip: Ip) returns (client: nat)
      requires Valid() && (ip in clients ==> Expired(leases, clients[ip]))
      modifies this`clients, this`attachments, this`overflow, this`nextClient
      ensures Valid() && client < nextClient
      ensures overflow == Some(client) || Entered(clients, ip, client)
      ensures Placed(old(clients), leases, old(overflow), old(nextClient), ip, client, clients, overflow)
    {
      if |clients| >= MAX_TRACKED {
        CleanupClients();
        AliveAgain(old(clients), leases);
      }
      if |clients| >= MAX_TRACKED {
        client := UseOverflow();
      } else {
        client := Enter(ip);
      }
    }

    /** Every 64th attachment cleans up first. */
    method Sweep()
      requires Valid()
      modifies this`clients, this`attachments
      ensures Valid() && clients == Swept(old(clients), leases, old(attachments))
      ensures attachments == if old(attachments) + 1 >= CLEANUP_EVERY then 0 else old(attachments) + 1
    {
      attachments := attachments + 1;
      if attachments >= CLEANUP_EVERY {
        CleanupClients();
      }
    }

    /** Give `ip` the live bucket it has, or place it. */
    method Choose(ip: Ip) returns (client: nat)
      requires Valid()
      modifies this`clients, this`attachments, this`overflow, this`nextClient
      ensures Valid() && client < nextClient
      ensures overflow == Some(client) || Entered(clients, ip, client)
      ensures Chosen(old(clients), leases, old(attachments), old(overflow), old(nextClient), ip, client, clients, overflow)
    {
      SweptLive(clients, leases, attachments, ip);
      Sweep();
      if ip in clients && !Expired(leases, clients[ip]) {
        client := clients[ip];
      } else {
        client := Place(ip);
      }
    }

    /** `attach`: no lease when the rate is unlimited, else a lease on the chosen bucket. */
    method Attach(ip: Ip) returns (lease: Option<nat>)
      requires Valid()
      modifies this
      ensures Valid() && epoch == old(epoch) && perIpRate == old(perIpRate)
      ensures lease.None? <==> perIpRate == 0
      ensures lease.None? ==> leases == old(leases) && clients == old(clients) && overflow == old(overflow)
      ensures lease.Some? ==>
        && lease.value !in old(leases) && lease.value in leases
        && leases == old(leases)[lease.value := leases[lease.value]]
        && leases[lease.value].ip == ip && leases[lease.value].epoch == epoch
        && Chosen(old(clients), old(leases), old(attachments), old(overflow), old(nextClient), ip, leases[lease.value].client, clients, overflow)
    {
      if perIpRate == 0 {
        return None;
      }
      var client := Choose(ip);
      LeasedOk(clients, overflow, leases, nextLease, nextClient, epoch, ip, client);
      var l := nextLease;
      leases, nextLease := leases[l := Lease(ip, client, epoch)], nextLease + 1;
      lease := Some(l);
    }

    /** Two tracked leases of one address share one bucket, so more connections do not add bandwidth. */
    lemma LeasesShare(a: nat, b: nat)
      requires Valid() && a in leases && b in leases && Tracked(leases[a]) && Tracked(leases[b]) && leases[a].ip == leases[b].ip
      ensures leases[a].client == leases[b].client
    {
    }

    /** And leases of different addresses do not, so no address can use up another's bandwidth. */
    lemma LeasesDiffer(a: nat, b: nat)
      requires Valid() && a in leases && b in leases && Tracked(leases[a]) && Tracked(leases[b]) && leases[a].ip != leases[b].ip
      ensures leases[a].client != leases[b].client
    {
    }

    /** The buckets alive in the current epoch. */
    ghost function Live(): (buckets: set<nat>)
      reads this
    {
      (set l | l in leases && leases[l].epoch == epoch :: leases[l].client) +
      (if overflow.Some? then {overflow.value} else {})
    }

    /** At most 257 buckets are alive at once, whatever the number of leases. */
    lemma LiveBounded()
      requires Valid()
      ensures |Live()| <= MAX_TRACKED + 1
    {
      var extra: set<nat> := if overflow.Some? then {overflow.value} else {};
      var tracked := set ip | ip in clients :: clients[ip];
      ImageSize(clients, clients.Keys);
      assert Live() <= tracked + extra by {
        forall c | c in Live() ensures c in tracked + extra {
          if c !in extra {
            var l :| l in leases && leases[l].epoch == epoch && leases[l].client == c;
            assert Tracked(leases[l]);
          }
        }
      }
      SubsetSize(Live(), tracked + extra);
    }
  }

  lemma GrowSize(m: map<Ip, nat>, ip: Ip, client: nat)
    ensures |m[ip := client]| <= |m| + 1
  {
    assert m[ip := client].Keys == m.Keys + {ip};
    assert |m[ip := client]| == |m[ip := client].Keys| && |m| == |m.Keys|;
  }

  lemma {:induction false} ImageSize(m: map<Ip, nat>, keys: set<Ip>)
    requires keys <= m.Keys
    ensures |set ip | ip in keys :: m[ip]| <= |keys|
    decreases |keys|
  {
    if keys != {} {
      var k :| k in keys;
      ImageSize(m, keys - {k});
      assert (set ip | ip in keys :: m[ip]) == (set ip | ip in keys - {k} :: m[ip]) + {m[k]};
    }
  }
}
