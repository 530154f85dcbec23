/** What a reader may rely on in every reachable state. */
module Consequences {
  import opened Basics
  import opened Models
  import opened Rings
  import opened Tables
  import opened Addressing
  import opened Waitlists
  import opened Scheduling
  import opened Invariants
  import Text

  /** No worker is in two active clusters. */
  lemma NoSharedMember(cfg: Settings, db: Db, c: ClusterId, d: ClusterId, w: WorkerId)
    requires Inv(cfg, db) && Active(db, c) && Active(db, d)
    requires w in db.rings[c] && w in db.rings[d]
    ensures c == d
  {
    assert Serves(cfg, db, c, w);
    assert Serves(cfg, db, d, w);
  }

  /** The rows of an active cluster. */
  lemma ActiveRows(cfg: Settings, db: Db, c: ClusterId) returns (third: nat)
    requires Inv(cfg, db) && Active(db, c)
    ensures Constraints(db) && c in db.rings && UniqueSlots(db.rings[c])
    ensures Compact(db.clusters[c], db.rings[c]) && On(db.clusters[c], db.rings[c], third)
  {
    assert ClusterHolds(db.clusters[c], db.rings[c]);
    hide Compact, On;
    third :| On(db.clusters[c], db.rings[c], third);
  }

  lemma MemberServes(cfg: Settings, db: Db, c: ClusterId, w: WorkerId)
    requires Inv(cfg, db) && Active(db, c) && c in db.rings && w in db.rings[c]
    ensures Serves(cfg, db, c, w)
  {
  }

  lemma MemberHost(row: ClusterRow, ring: Ring, third: nat, i: nat)
    requires Compact(row, ring) && On(row, ring, third) && i < |RingOrder(ring)|
    ensures RingOrder(ring)[i] in IpsOf(ring) && IpsOf(ring)[RingOrder(ring)[i]] == HostText(third, i + 1)
  {
    hide Compact, HostText, SubnetText, RingOrder, Ordered, UniqueSlots, On, IpsOf;
    CompactSlots(row, ring);
    CompactPosition(row, ring, i);
    HostOfRow(row, ring, third, RingOrder(ring)[i]);
  }

  lemma HostOfRow(row: ClusterRow, ring: Ring, third: nat, w: WorkerId)
    requires On(row, ring, third) && w in ring
    ensures w in IpsOf(ring) && IpsOf(ring)[w] == HostText(third, ring[w].ringPosition + 1)
  {
    HostTextNonempty(third, ring[w].ringPosition + 1);
    hide HostText, SubnetText;
  }

  lemma MemberRowAt(cfg: Settings, db: Db, c: ClusterId, i: nat) returns (third: nat)
    requires Inv(cfg, db) && Active(db, c) && c in db.rings && UniqueSlots(db.rings[c]) && i < |RingOrder(db.rings[c])|
    ensures On(db.clusters[c], db.rings[c], third)
    ensures var w := RingOrder(db.rings[c])[i];
            && w in db.rings[c] && Serves(cfg, db, c, w)
            && db.rings[c][w].ringPosition == i
            && db.rings[c][w].assignedIp == Some(HostText(third, i + 1))
            && w in IpsOf(db.rings[c]) && IpsOf(db.rings[c])[w] == HostText(third, i + 1)
  {
    hide Inv, HostText, SubnetText, Compact, Serves;
    third := ActiveRows(cfg, db, c);
    var row, ring := db.clusters[c], db.rings[c];
    CompactPosition(row, ring, i);
    MemberHost(row, ring, third, i);
    MemberServes(cfg, db, c, RingOrder(ring)[i]);
  }

  /** Member i of an active cluster is online, assigned to it at ring position i, and holds the
      address the cluster records for it, which is host i + 1 of the cluster's subnet. */
  lemma MemberAt(cfg: Settings, db: Db, c: ClusterId, i: nat) returns (third: nat)
    requires Inv(cfg, db) && Constraints(db) && Active(db, c) && i < |ClusterAt(db, c).value.members|
    ensures var rec := ClusterAt(db, c).value;
            var w := rec.members[i];
            && w in db.workers
            && db.workers[w].online && db.workers[w].status.Assigned?
            && db.workers[w].clusterId == Some(c)
            && db.workers[w].ringPosition == Some(i)
            && w in rec.ips && db.workers[w].assignedIp == Some(rec.ips[w])
            && 1 <= third <= LAST_THIRD && rec.subnet == SubnetText(third) && rec.ips[w] == HostText(third, i + 1)
  {
    assert UniqueSlots(db.rings[c]);
    hide Inv, HostText, SubnetText, Constraints, UniqueSlots, IpsOf, ReadyOf, WindowsOf;
    third := MemberRowAt(cfg, db, c, i);
  }

  /** Conversely a worker that points to a cluster is a member of that active cluster. */
  lemma PointerIsMembership(cfg: Settings, db: Db, w: WorkerId)
    requires Inv(cfg, db) && w in db.workers && db.workers[w].clusterId.Some?
    ensures var c := db.workers[w].clusterId.value;
            Active(db, c) && w in ClusterAt(db, c).value.members
  {
    assert Placed(db, w);
    var c := db.workers[w].clusterId.value;
    assert w in Elements(RingOrder(db.rings[c]));
  }

  /** A worker with an address is a member, and the address is its own host of its cluster's subnet. */
  lemma AddressedWorker(cfg: Settings, db: Db, w: WorkerId) returns (c: ClusterId, third: nat)
    requires Inv(cfg, db) && w in db.workers && db.workers[w].assignedIp.Some?
    ensures Active(db, c) && c in db.rings && w in db.rings[c]
    ensures On(db.clusters[c], db.rings[c], third)
    ensures db.workers[w].assignedIp == Some(HostText(third, db.rings[c][w].ringPosition + 1))
  {
    hide Inv, SubnetText, HostText, Compact;
    AddressedIsPlaced(cfg, db, w);
    c := db.workers[w].clusterId.value;
    third := ActiveRows(cfg, db, c);
    MemberServes(cfg, db, c, w);
  }

  lemma AddressedIsPlaced(cfg: Settings, db: Db, w: WorkerId)
    requires Inv(cfg, db) && w in db.workers && db.workers[w].assignedIp.Some?
    ensures db.workers[w].clusterId.Some?
    ensures var c := db.workers[w].clusterId.value;
            Active(db, c) && c in db.rings && w in db.rings[c]
  {
    hide MembersServe, ClustersHold, SubnetsHold, KeysHold;
    assert Placed(db, w);
  }

  lemma SubnetHeldOnce(cfg: Settings, db: Db, c: ClusterId, d: ClusterId)
    requires Inv(cfg, db) && Active(db, c) && Active(db, d) && db.clusters[c].subnet == db.clusters[d].subnet
    ensures c == d && c in db.rings && UniqueSlots(db.rings[c])
  {
  }

  /** No address is assigned twice. */
  lemma AddressesDistinct(cfg: Settings, db: Db, v: WorkerId, w: WorkerId)
    requires Inv(cfg, db) && v in db.workers && w in db.workers && v != w
    requires db.workers[v].assignedIp.Some? && db.workers[w].assignedIp.Some?
    ensures db.workers[v].assignedIp != db.workers[w].assignedIp
  {
    hide Inv, SubnetText, HostText;
    var c, s := AddressedWorker(cfg, db, v);
    var d, t := AddressedWorker(cfg, db, w);
    var i, j := db.rings[c][v].ringPosition, db.rings[d][w].ringPosition;
    if HostText(s, i + 1) == HostText(t, j + 1) {
      HostInjective(s, i + 1, t, j + 1);
      SubnetHeldOnce(cfg, db, c, d);
    }
  }

  // ---- Allocation ----

  ghost function ActiveClusters(db: Db): set<ClusterId> {
    set c | c in db.clusters && !db.clusters[c].status.Terminated?
  }

  /** Splitting assigned addresses adds nothing: they refer to subnets of active clusters. */
  lemma UsedAreActive(cfg: Settings, db: Db)
    requires Inv(cfg, db)
    ensures UsedSubnets(db) == ActiveSubnets(db)
    ensures ActiveSubnets(db) <= Pool()
  {
    hide Inv, SubnetText, HostText;
    forall w | w in db.workers && Refers(db.workers[w]).Some?
      ensures Refers(db.workers[w]).value in ActiveSubnets(db)
    {
      ReferredIsActive(cfg, db, w);
    }
    forall c | Active(db, c) ensures db.clusters[c].subnet in Pool() {
      var third := ActiveRows(cfg, db, c);
    }
  }

  lemma ReferredIsActive(cfg: Settings, db: Db, w: WorkerId)
    requires Inv(cfg, db) && w in db.workers && Refers(db.workers[w]).Some?
    ensures Refers(db.workers[w]).value in ActiveSubnets(db)
  {
    hide Inv, SubnetText, HostText, SubnetOfIp;
    var c, third := AddressedWorker(cfg, db, w);
    SubnetRecovered(third, db.rings[c][w].ringPosition + 1);
    assert db.clusters[c].subnet in ActiveSubnets(db);
  }

  ghost function SubnetsOf(db: Db, cs: set<ClusterId>): set<string> {
    set c | c in cs && c in db.clusters :: db.clusters[c].subnet
  }

  lemma {:induction false} DistinctSubnetsCount(db: Db, cs: set<ClusterId>)
    requires SubnetsHold(db) && forall c :: c in cs ==> Active(db, c)
    ensures |SubnetsOf(db, cs)| == |cs|
  {
    if cs == {} {
      assert SubnetsOf(db, cs) == {};
    } else {
      var c :| c in cs;
      DistinctSubnetsCount(db, cs - {c});
      assert SubnetsOf(db, cs) == SubnetsOf(db, cs - {c}) + {db.clusters[c].subnet};
      assert db.clusters[c].subnet !in SubnetsOf(db, cs - {c});
    }
  }

  lemma ActiveSubnetsCount(db: Db)
    requires SubnetsHold(db)
    ensures |ActiveSubnets(db)| == |ActiveClusters(db)|
  {
    DistinctSubnetsCount(db, ActiveClusters(db));
    assert ActiveSubnets(db) == SubnetsOf(db, ActiveClusters(db));
  }

  /** Allocation fails exactly when all 255 subnets are held by active clusters, of which there are
      never more. */
  lemma AllocationExact(cfg: Settings, db: Db)
    requires Inv(cfg, db)
    ensures |ActiveClusters(db)| <= LAST_THIRD
    ensures NextSubnet(db).None? <==> |ActiveClusters(db)| == LAST_THIRD
  {
    assert SubnetsHold(db);
    hide Inv, SubnetsHold, Pool, SubnetsOf, ActiveSubnets, ActiveClusters, UsedSubnets, FirstFree;
    UsedAreActive(cfg, db);
    ActiveSubnetsCount(db);
    PoolSize();
    SubsetCardinality(ActiveSubnets(db), Pool());
    AllocationFailsWhenPoolFull(UsedSubnets(db));
  }

  /** Some active cluster has the subnet, or some worker still has an address in it. */
  ghost predicate Taken(db: Db, third: nat) {
    || (exists c :: Active(db, c) && db.clusters[c].subnet == SubnetText(third))
    || (exists w :: HasHost(db, w, third))
  }

  ghost predicate HasHost(db: Db, w: WorkerId, third: nat) {
    w in db.workers && exists host: nat :: db.workers[w].assignedIp == Some(HostText(third, host))
  }

  /** Every address that is assigned at all is a host of some subnet. */
  ghost predicate HostsOnly(db: Db) {
    forall w :: w in db.workers && db.workers[w].assignedIp.Some? ==> exists third: nat :: HasHost(db, w, third)
  }

  lemma HostRefers(db: Db, w: WorkerId, third: nat)
    requires HasHost(db, w, third)
    ensures Refers(db.workers[w]) == Some(SubnetText(third))
  {
    hide HostText, SubnetText, SubnetOfIp;
    var host: nat :| db.workers[w].assignedIp == Some(HostText(third, host));
    HostTextNonempty(third, host);
    SubnetRecovered(third, host);
  }

  lemma UsedIsTaken(db: Db, third: nat)
    requires HostsOnly(db)
    ensures SubnetText(third) in UsedSubnets(db) <==> Taken(db, third)
  {
    hide HostText, SubnetText, Refers;
    if SubnetText(third) in ReferencedSubnets(db) {
      var w :| w in db.workers && Refers(db.workers[w]).Some? && Refers(db.workers[w]).value == SubnetText(third);
      ReferrerHost(db, w);
      var t: nat :| HasHost(db, w, t);
      HostRefers(db, w, t);
      SubnetInjective(t, third);
    }
    if w :| HasHost(db, w, third) {
      HostRefers(db, w, third);
    }
  }

  lemma ReferrerHost(db: Db, w: WorkerId)
    requires HostsOnly(db) && w in db.workers && Refers(db.workers[w]).Some?
    ensures exists third: nat :: HasHost(db, w, third)
  {
  }

  /** In any database, reachable or not, in which assigned addresses are hosts: allocation returns the least
      subnet that no active cluster has and that no worker has an address in. */
  lemma AllocatesLeastUntaken(db: Db, third: nat)
    requires HostsOnly(db) && 1 <= third <= LAST_THIRD
    ensures NextSubnet(db) == Some(SubnetText(third)) <==>
            !Taken(db, third) && forall t :: 1 <= t < third ==> Taken(db, t)
  {
    hide SubnetText, HostText, Taken, UsedSubnets, FirstFree, HostsOnly;
    FirstFreeIsLeast(UsedSubnets(db), 1);
    forall t: nat ensures SubnetText(t) in UsedSubnets(db) <==> Taken(db, t) {
      UsedIsTaken(db, t);
    }
    if NextSubnet(db).Some? {
      var t: nat :| 1 <= t <= LAST_THIRD && NextSubnet(db) == Some(SubnetText(t)) &&
                    SubnetText(t) !in UsedSubnets(db) && forall s :: 1 <= s < t ==> SubnetText(s) in UsedSubnets(db);
      if SubnetText(t) == SubnetText(third) {
        SubnetInjective(t, third);
      }
    }
  }

  lemma ServerAddressOnRing(row: ClusterRow, ring: Ring, third: nat, offset: nat)
    requires Compact(row, ring) && On(row, ring, third) && 1 <= offset
    ensures |Text.Split(row.subnet)| > 2
    ensures ServerIp(row.subnet, offset) in IpsOf(ring).Values <==> offset <= |RingOrder(ring)|
  {
    hide HostText, SubnetText, ServerIp, Compact, On, UniqueSlots, RingOrder, Ordered, IpsOf, Text.Split;
    CompactSlots(row, ring);
    SubnetOn(row, ring, third);
    ServerCollision(third, offset, offset);
    HostOnRing(row, ring, third, offset);
  }

  /** The hosts in use are 1 to the number of members. */
  lemma HostOnRing(row: ClusterRow, ring: Ring, third: nat, host: nat)
    requires Compact(row, ring) && On(row, ring, third) && 1 <= host
    ensures UniqueSlots(ring)
    ensures HostText(third, host) in IpsOf(ring).Values <==> host <= |RingOrder(ring)|
  {
    hide HostText, SubnetText, Compact, On, UniqueSlots, RingOrder, IpsOf;
    CompactSlots(row, ring);
    if host <= |RingOrder(ring)| {
      HostUsed(row, ring, third, host);
    } else {
      HostUnused(row, ring, third, host);
    }
  }

  lemma HostUsed(row: ClusterRow, ring: Ring, third: nat, host: nat)
    requires Compact(row, ring) && On(row, ring, third) && 1 <= host <= |RingOrder(ring)|
    ensures HostText(third, host) in IpsOf(ring).Values
  {
    hide HostText, SubnetText, Compact, On, UniqueSlots, RingOrder, IpsOf;
    CompactSlots(row, ring);
    MemberHost(row, ring, third, host - 1);
    ValueOf(IpsOf(ring), RingOrder(ring)[host - 1]);
  }

  lemma HostUnused(row: ClusterRow, ring: Ring, third: nat, host: nat)
    requires Compact(row, ring) && On(row, ring, third) && |RingOrder(ring)| < host
    ensures HostText(third, host) !in IpsOf(ring).Values
  {
    hide HostText, SubnetText, Compact, On, UniqueSlots, RingOrder, IpsOf;
    CompactSlots(row, ring);
    if HostText(third, host) in IpsOf(ring).Values {
      OtherHost(row, ring, third, host, KeyOf(IpsOf(ring), HostText(third, host)));
    }
  }

  lemma ValueOf(ips: map<WorkerId, string>, w: WorkerId)
    requires w in ips
    ensures ips[w] in ips.Values
  {
  }

  ghost function KeyOf(ips: map<WorkerId, string>, ip: string): (w: WorkerId)
    requires ip in ips.Values
    ensures w in ips && ips[w] == ip
  {
    var w :| w in ips && ips[w] == ip;
    w
  }

  lemma OtherHost(row: ClusterRow, ring: Ring, third: nat, offset: nat, w: WorkerId)
    requires Compact(row, ring) && On(row, ring, third) && w in IpsOf(ring) && |RingOrder(ring)| < offset
    ensures IpsOf(ring)[w] != HostText(third, offset)
  {
    hide HostText, SubnetText, Compact, On, UniqueSlots, RingOrder, Ordered, IpsOf;
    CompactSlots(row, ring);
    var i := MemberIndex(ring, w);
    MemberHost(row, ring, third, i);
    if HostText(third, i + 1) == HostText(third, offset) {
      HostInjective(third, i + 1, third, offset);
    }
  }

  lemma MemberIndex(ring: Ring, w: WorkerId) returns (i: nat)
    requires UniqueSlots(ring) && w in IpsOf(ring)
    ensures i < |RingOrder(ring)| && RingOrder(ring)[i] == w
  {
    hide RingOrder, UniqueSlots;
    i := RingIndex(ring, w);
  }

  lemma SubnetOn(row: ClusterRow, ring: Ring, third: nat)
    requires On(row, ring, third)
    ensures row.subnet == SubnetText(third)
  {
  }

  /** The server's own address meets a member's exactly when the cluster has at least `offset`
      members; the default offset is 254. */
  lemma ServerAddressFree(cfg: Settings, db: Db, c: ClusterId, offset: nat)
    requires Inv(cfg, db) && Constraints(db) && Active(db, c) && 1 <= offset
    ensures |Text.Split(ClusterAt(db, c).value.subnet)| > 2
    ensures var rec := ClusterAt(db, c).value;
            ServerIp(rec.subnet, offset) in rec.ips.Values <==> offset <= |rec.members|
  {
    assert UniqueSlots(db.rings[c]);
    hide Inv, ServerIp, Compact, Constraints, UniqueSlots, IpsOf, ReadyOf, WindowsOf, On;
    var t := ActiveRows(cfg, db, c);
    ServerAddressOnRing(db.clusters[c], db.rings[c], t, offset);
  }

  /** If 253 workers of the least memory suffice for the model, its clusters have at most 253
      members, and the server's default address, host 254, stays clear of them. */
  lemma FormedClearOfServer(cfg: Settings, db: Db, model: Token, now: Time, least: nat)
    requires Constraints(db) && Drawn(db) && model in cfg.models
    requires Chosen(cfg, db, model, now) != [] && NextSubnet(db).Some?
    requires forall w :: w in db.workers ==> db.workers[w].memory >= least
    requires 253 * least >= cfg.models[model].requiredMemory
    ensures var after := FormCluster(cfg, db, model, now).db;
            && db.next in after.clusters && db.next in after.rings
            && Compact(after.clusters[db.next], after.rings[db.next])
            && |RingOrder(after.rings[db.next])| <= 253
            && |Text.Split(after.clusters[db.next].subnet)| > 2
            && ServerIp(after.clusters[db.next].subnet, 254) !in IpsOf(after.rings[db.next]).Values
  {
    hide Chosen, NextSubnet, FormCluster, Constraints, FormedRing, FormedWorkers, UsedSubnets, SubnetText, ClusterHolds,
         RingOrder, IpsOf, ServerIp, Compact;
    var chosen := Chosen(cfg, db, model, now);
    var third := FormClusterForms(cfg, db, model, now);
    var after := FormCluster(cfg, db, model, now).db;
    ChosenSpec(cfg, db, model, now);
    FormedOn(after.clusters[db.next], after.rings[db.next], chosen, third);
    FormedOrder(after.rings[db.next], chosen, third);
    ChosenBound(cfg, db, model, now, least, 253);
    ServerAddressOnRing(after.clusters[db.next], after.rings[db.next], third, 254);
  }

  lemma FormedOn(row: ClusterRow, ring: Ring, chosen: seq<Worker>, third: nat)
    requires FormedRing(ring, chosen, third) && chosen != [] && Distinct(WorkerIds(chosen))
    requires 1 <= third <= LAST_THIRD && row.subnet == SubnetText(third)
    requires row.status.Assembling? && !row.reported
    ensures Compact(row, ring) && On(row, ring, third)
  {
    hide SubnetText, HostText, Compact;
    FormedRingHolds(row, ring, chosen, third);
    forall w | w in ring ensures ring[w].assignedIp == Some(HostText(third, ring[w].ringPosition + 1)) {
      assert w in Elements(WorkerIds(chosen));
      var i :| 0 <= i < |chosen| && WorkerIds(chosen)[i] == w;
      assert chosen[i].workerId == w;
    }
  }

  lemma ChosenBound(cfg: Settings, db: Db, model: Token, now: Time, least: nat, most: nat)
    requires Constraints(db) && model in cfg.models && 1 <= most
    requires forall w :: w in db.workers ==> db.workers[w].memory >= least
    requires most * least >= cfg.models[model].requiredMemory
    ensures |Chosen(cfg, db, model, now)| <= most
  {
    var ws := Waitlist(Rows(db), model, cfg.models[model].gguf, now);
    WaitlistSpec(Rows(db), model, cfg.models[model].gguf, now);
    RowsDistinct(db);
    hide Constraints, Waitlist, Rows;
    PrefixBound(ws, cfg.models[model].requiredMemory, least, most);
    ReachSpec(ws, cfg.models[model].requiredMemory, 1);
  }
}
