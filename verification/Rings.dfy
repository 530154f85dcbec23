/** Membership of one cluster: the junction rows against the ClusterRecord value
    (store.py: _cluster_to_row, _load_cluster_members, _save_cluster_members). */
module Rings {
  import opened Basics
  import opened Models

  /** UNIQUE (cluster_id, ring_position). */
  ghost predicate UniqueSlots(ring: Ring) {
    forall v, w :: v in ring && w in ring && v != w ==> ring[v].ringPosition != ring[w].ringPosition
  }

  predicate Least(ring: Ring, w: WorkerId) {
    w in ring && forall v :: v in ring ==> ring[w].ringPosition <= ring[v].ringPosition
  }

  lemma {:induction false} LeastExists(ring: Ring)
    requires ring != map[]
    ensures exists w :: Least(ring, w)
    decreases |ring|
  {
    var v :| v in ring;
    var rest := ring - {v};
    if rest == map[] {
      assert forall u :: u in ring && u != v ==> u in rest;
      assert Least(ring, v);
    } else {
      assert rest.Keys < ring.Keys;
      SubsetCardinality(rest.Keys, ring.Keys);
      LeastExists(rest);
      var w :| Least(rest, w);
      assert forall u :: u in ring ==> u == v || u in rest;
      assert Least(ring, w) || Least(ring, v);
    }
  }

  lemma LeastUnique(ring: Ring, v: WorkerId, w: WorkerId)
    requires UniqueSlots(ring) && Least(ring, v) && Least(ring, w)
    ensures v == w
  {
  }

  /** members lists the rows of the ring by strictly increasing position. */
  ghost predicate Ordered(ring: Ring, members: seq<WorkerId>) {
    && Elements(members) == ring.Keys
    && (forall i, j :: 0 <= i < j < |members| ==> Before(ring, members[i], members[j]))
  }

  predicate Before(ring: Ring, v: WorkerId, w: WorkerId) {
    v in ring && w in ring && ring[v].ringPosition < ring[w].ringPosition
  }

  lemma OrderedCons(ring: Ring, w: WorkerId, rest: seq<WorkerId>)
    requires UniqueSlots(ring) && Least(ring, w) && Ordered(ring - {w}, rest)
    ensures Ordered(ring, [w] + rest)
  {
    var members := [w] + rest;
    assert forall v :: v in members <==> v == w || v in rest;
    assert forall v :: v in rest <==> v in (ring - {w});
    forall i, j | 0 <= i < j < |members| ensures Before(ring, members[i], members[j]) {
      assert members[j] == rest[j - 1];
      assert members[j] in rest;
      if i > 0 {
        assert members[i] == rest[i - 1];
        assert Before(ring - {w}, rest[i - 1], rest[j - 1]);
      }
    }
  }

  lemma OrderedUncons(ring: Ring, members: seq<WorkerId>)
    requires members != [] && Ordered(ring, members)
    ensures Least(ring, members[0])
    ensures Ordered(ring - {members[0]}, members[1..])
  {
    var w := members[0];
    assert members == [w] + members[1..];
    assert w in Elements(members);
    forall v | v in ring ensures ring[w].ringPosition <= ring[v].ringPosition {
      assert v in Elements(members);
      var i :| 0 <= i < |members| && members[i] == v;
      assert i > 0 ==> Before(ring, members[0], members[i]);
    }
    var rest := members[1..];
    forall i, j | 0 <= i < j < |rest| ensures Before(ring - {w}, rest[i], rest[j]) {
      assert Before(ring, members[i + 1], members[j + 1]);
      assert Before(ring, members[0], members[i + 1]);
    }
    assert Elements(rest) == (ring - {w}).Keys by {
      forall v ensures v in rest <==> v in ring && v != w {
        assert v in Elements(members) <==> v in ring;
        if v in rest {
          var i :| 0 <= i < |rest| && rest[i] == v;
          assert Before(ring, members[0], members[i + 1]);
        }
      }
    }
  }

  /** SELECT worker_id ... ORDER BY ring_position over an unordered table. */
  function RingOrder(ring: Ring): (members: seq<WorkerId>)
    requires UniqueSlots(ring)
    ensures Ordered(ring, members)
    decreases |ring.Keys|
  {
    if ring == map[] then []
    else
      LeastExists(ring);
      assert forall v, w :: Least(ring, v) && Least(ring, w) ==> v == w by {
        forall v, w | Least(ring, v) && Least(ring, w) ensures v == w { LeastUnique(ring, v, w); }
      }
      var w :| Least(ring, w);
      assert (ring - {w}).Keys == ring.Keys - {w};
      var rest := RingOrder(ring - {w});
      OrderedCons(ring, w, rest);
      [w] + rest
  }

  /** Only one listing is ordered, so the engine's own row order cannot matter. */
  lemma {:induction false} RingOrderUnique(ring: Ring, members: seq<WorkerId>)
    requires UniqueSlots(ring) && Ordered(ring, members)
    ensures RingOrder(ring) == members
  {
    OrderedIsUnique(ring, RingOrder(ring), members);
  }

  lemma {:induction false} OrderedIsUnique(ring: Ring, a: seq<WorkerId>, b: seq<WorkerId>)
    requires UniqueSlots(ring) && Ordered(ring, a) && Ordered(ring, b)
    ensures a == b
    decreases |a|
  {
    hide Ordered, Least;
    OrderedDistinct(ring, a);
    OrderedDistinct(ring, b);
    if a != [] {
      OrderedUncons(ring, a);
      OrderedUncons(ring, b);
      LeastUnique(ring, a[0], b[0]);
      OrderedIsUnique(ring - {a[0]}, a[1..], b[1..]);
      assert a == [a[0]] + a[1..] && b == [b[0]] + b[1..];
    }
  }

  lemma OrderedDistinct(ring: Ring, members: seq<WorkerId>)
    requires Ordered(ring, members)
    ensures Distinct(members) && |members| == |ring.Keys|
  {
    forall i, j | 0 <= i < j < |members| ensures members[i] != members[j] {
      assert Before(ring, members[i], members[j]);
    }
    DistinctCardinality(members);
  }

  /** The i-th member's slot is at least i, and it is i when all slots are below their number. */
  lemma OrderedSlot(ring: Ring, members: seq<WorkerId>, i: nat)
    requires Ordered(ring, members) && i < |members|
    ensures members[i] in ring && i <= ring[members[i]].ringPosition
    ensures (forall w :: w in ring ==> ring[w].ringPosition < |members|) ==> ring[members[i]].ringPosition == i
  {
    hide Ordered;
    SlotAtLeast(ring, members, i);
    if forall w :: w in ring ==> ring[w].ringPosition < |members| {
      SlotAtMost(ring, members, i);
    }
  }

  lemma {:induction false} SlotAtLeast(ring: Ring, members: seq<WorkerId>, i: nat)
    requires Ordered(ring, members) && i < |members|
    ensures members[i] in ring && i <= ring[members[i]].ringPosition
  {
    if i == 0 {
      assert members[0] in Elements(members);
    } else {
      SlotAtLeast(ring, members, i - 1);
      assert Before(ring, members[i - 1], members[i]);
    }
  }

  lemma {:induction false} SlotAtMost(ring: Ring, members: seq<WorkerId>, i: nat)
    requires Ordered(ring, members) && i < |members|
    requires forall w :: w in ring ==> ring[w].ringPosition < |members|
    ensures members[i] in ring && ring[members[i]].ringPosition <= i
    decreases |members| - i
  {
    assert members[i] in Elements(members);
    if i + 1 < |members| {
      SlotAtMost(ring, members, i + 1);
      assert Before(ring, members[i], members[i + 1]);
    }
  }

  // ---- Loading ----

  function ReadyOf(ring: Ring): set<WorkerId> {
    set w | w in ring && ring[w].ready
  }

  function IpsOf(ring: Ring): map<WorkerId, string> {
    map w | w in ring && Truthy(ring[w].assignedIp) :: ring[w].assignedIp.value
  }

  function WindowsOf(ring: Ring): map<WorkerId, nat> {
    map w | w in ring && ring[w].layerWindow.Some? :: ring[w].layerWindow.value
  }

  /** _load_cluster_members on an existing cluster row: the reported flag alone decides between
      "no distribution" and an empty one. */
  function LoadRecord(id: ClusterId, row: ClusterRow, ring: Ring): ClusterRecord
    requires UniqueSlots(ring)
  {
    ClusterRecord(
      id, row.model, row.subnet, RingOrder(ring), row.status, ReadyOf(ring), row.createdAt, IpsOf(ring),
      if row.reported then Some(WindowsOf(ring)) else None)
  }

  // ---- Saving ----

  /** _cluster_to_row. */
  function RowOf(rec: ClusterRecord): ClusterRow {
    ClusterRow(rec.model, rec.subnet, rec.status, rec.createdAt, rec.layerWindows.Some?)
  }

  /** The values bound for the i-th member; an empty distribution is falsy like a missing one. */
  function MemberValues(rec: ClusterRecord, i: nat): MemberRow
    requires i < |rec.members|
  {
    var w := rec.members[i];
    MemberRow(
      i,
      if w in rec.ips then Some(rec.ips[w]) else None,
      w in rec.ready,
      if rec.layerWindows.Some? && rec.layerWindows.value != map[] && w in rec.layerWindows.value
      then Some(rec.layerWindows.value[w])
      else None)
  }

  /** INSERT ... ON CONFLICT (cluster_id, worker_id) DO UPDATE. The upsert clause does not cover
      the other key, so a slot held by another worker is an IntegrityError (None). */
  function Upsert(ring: Ring, w: WorkerId, row: MemberRow): Option<Ring> {
    if exists v :: v in ring && v != w && ring[v].ringPosition == row.ringPosition
    then None
    else Some(ring[w := row])
  }

  /** The upserts for members[i..], one by one. */
  function UpsertFrom(ring: Ring, rec: ClusterRecord, i: nat): Option<Ring>
    requires i <= |rec.members|
    decreases |rec.members| - i
  {
    if i == |rec.members| then Some(ring)
    else
      match Upsert(ring, rec.members[i], MemberValues(rec, i))
      case None => None
      case Some(next) => UpsertFrom(next, rec, i + 1)
  }

  /** DELETE ... WHERE worker_id NOT IN (members). */
  function Prune(ring: Ring, members: seq<WorkerId>): Ring {
    map w | w in ring && w in members :: ring[w]
  }

  /** _save_cluster_members; None is the IntegrityError, which rolls the transaction back. */
  function SaveRing(ring: Ring, rec: ClusterRecord): Option<Ring> {
    match UpsertFrom(ring, rec, 0)
    case None => None
    case Some(saved) => Some(Prune(saved, rec.members))
  }

  // ---- What saving stores ----

  /** The ring stores exactly the record's membership. */
  ghost predicate Stores(ring: Ring, rec: ClusterRecord) {
    && ring.Keys == Elements(rec.members)
    && (forall i :: 0 <= i < |rec.members| ==> ring[rec.members[i]] == MemberValues(rec, i))
  }

  /** The members before i are stored, and no later slot is below its member's index. */
  ghost predicate StoredBelow(ring: Ring, rec: ClusterRecord, i: nat)
    requires i <= |rec.members|
  {
    && ring.Keys <= Elements(rec.members)
    && (forall j :: 0 <= j < i ==> rec.members[j] in ring && ring[rec.members[j]] == MemberValues(rec, j))
    && (forall j :: i <= j < |rec.members| && rec.members[j] in ring ==> j <= ring[rec.members[j]].ringPosition)
  }

  lemma StoredBelowNext(ring: Ring, rec: ClusterRecord, i: nat)
    requires Distinct(rec.members) && i < |rec.members| && StoredBelow(ring, rec, i)
    ensures Upsert(ring, rec.members[i], MemberValues(rec, i)) == Some(ring[rec.members[i] := MemberValues(rec, i)])
    ensures StoredBelow(ring[rec.members[i] := MemberValues(rec, i)], rec, i + 1)
  {
    var w := rec.members[i];
    forall v | v in ring && v != w ensures ring[v].ringPosition != i {
      assert v in Elements(rec.members);
      var j :| 0 <= j < |rec.members| && rec.members[j] == v;
      if j < i { assert ring[rec.members[j]] == MemberValues(rec, j); }
    }
    assert w in Elements(rec.members);
  }

  lemma StoredBelowAll(ring: Ring, rec: ClusterRecord)
    requires StoredBelow(ring, rec, |rec.members|)
    ensures Stores(ring, rec)
  {
    hide MemberValues;
    forall w | w in Elements(rec.members) ensures w in ring {
      var j :| 0 <= j < |rec.members| && rec.members[j] == w;
    }
  }

  lemma {:induction false} UpsertFromSucceeds(ring: Ring, rec: ClusterRecord, i: nat)
    requires Distinct(rec.members) && i <= |rec.members| && StoredBelow(ring, rec, i)
    ensures UpsertFrom(ring, rec, i).Some? && Stores(UpsertFrom(ring, rec, i).value, rec)
    decreases |rec.members| - i
  {
    hide StoredBelow, Upsert, MemberValues, Stores;
    if i == |rec.members| {
      StoredBelowAll(ring, rec);
    } else {
      StoredBelowNext(ring, rec, i);
      UpsertFromSucceeds(ring[rec.members[i] := MemberValues(rec, i)], rec, i + 1);
    }
  }

  lemma PruneStored(ring: Ring, rec: ClusterRecord)
    requires Stores(ring, rec)
    ensures Prune(ring, rec.members) == ring
  {
    assert forall w :: w in ring ==> w in Elements(rec.members);
  }

  /** Re-saving a record whose member list is the stored one never meets the slot constraint, at
      none of the intermediate upserts, whatever gaps the stored positions have. */
  lemma ResaveSucceeds(ring: Ring, rec: ClusterRecord)
    requires UniqueSlots(ring) && rec.members == RingOrder(ring)
    ensures SaveRing(ring, rec).Some? && Stores(SaveRing(ring, rec).value, rec)
  {
    var members := rec.members;
    hide RingOrder, Ordered, UniqueSlots, UpsertFrom, Stores, Prune;
    OrderedDistinct(ring, members);
    OrderedElements(ring, members);
    forall j | 0 <= j < |members| ensures members[j] in ring && j <= ring[members[j]].ringPosition {
      OrderedSlot(ring, members, j);
    }
    UpsertFromSucceeds(ring, rec, 0);
    PruneStored(UpsertFrom(ring, rec, 0).value, rec);
  }

  lemma OrderedElements(ring: Ring, members: seq<WorkerId>)
    requires Ordered(ring, members)
    ensures Elements(members) == ring.Keys
  {
  }

  /** Saving a new cluster (create_cluster) succeeds for distinct members. */
  lemma SaveNewSucceeds(rec: ClusterRecord)
    requires Distinct(rec.members)
    ensures SaveRing(map[], rec).Some? && Stores(SaveRing(map[], rec).value, rec)
  {
    UpsertFromSucceeds(map[], rec, 0);
    PruneStored(UpsertFrom(map[], rec, 0).value, rec);
  }

  // ---- Exactly when a save fails ----

  /** The upsert of members[i] finds its slot held by a worker that none of the upserts so far wrote. */
  ghost predicate Blocks(ring: Ring, members: seq<WorkerId>, i: nat, v: WorkerId)
    requires i < |members|
  {
    v in ring && v !in members[..i + 1] && ring[v].ringPosition == i
  }

  ghost predicate Blocked(ring: Ring, members: seq<WorkerId>, begin: nat) {
    exists i: nat, v :: begin <= i < |members| && Blocks(ring, members, i, v)
  }

  /** The members before i sit in slots below i; everybody else has the row from before. */
  ghost predicate Written(before: Ring, ring: Ring, members: seq<WorkerId>, i: nat)
    requires i <= |members|
  {
    && (forall v :: v in members[..i] ==> v in ring && ring[v].ringPosition < i)
    && (forall v :: v in ring && v !in members[..i] ==> v in before && ring[v] == before[v])
    && (forall v :: v in before && v !in members[..i] ==> v in ring)
  }

  lemma UpsertExactly(before: Ring, ring: Ring, rec: ClusterRecord, i: nat)
    requires i < |rec.members| && Written(before, ring, rec.members, i)
    ensures Upsert(ring, rec.members[i], MemberValues(rec, i)).None? <==>
            exists v :: Blocks(before, rec.members, i, v)
    ensures Upsert(ring, rec.members[i], MemberValues(rec, i)).Some? ==>
              Written(before, Upsert(ring, rec.members[i], MemberValues(rec, i)).value, rec.members, i + 1)
  {
    var w := rec.members[i];
    assert rec.members[..i + 1] == rec.members[..i] + [w];
    if Upsert(ring, w, MemberValues(rec, i)).None? {
      var v :| v in ring && v != w && ring[v].ringPosition == i;
      assert Blocks(before, rec.members, i, v);
    }
    if v :| Blocks(before, rec.members, i, v) {
      assert v in ring && v != w && ring[v].ringPosition == i;
    }
  }

  lemma {:induction false} UpsertFromExactly(before: Ring, ring: Ring, rec: ClusterRecord, i: nat)
    requires i <= |rec.members| && Written(before, ring, rec.members, i)
    ensures UpsertFrom(ring, rec, i).None? <==> Blocked(before, rec.members, i)
    decreases |rec.members| - i
  {
    hide Written, Upsert, MemberValues, Blocks;
    if i < |rec.members| {
      UpsertExactly(before, ring, rec, i);
      var next := Upsert(ring, rec.members[i], MemberValues(rec, i));
      if next.Some? {
        UpsertFromExactly(before, next.value, rec, i + 1);
      }
    }
  }

  /** A save fails if and only if some upsert finds its slot held by a worker not yet written. */
  lemma SaveFailsExactly(ring: Ring, rec: ClusterRecord)
    ensures SaveRing(ring, rec).None? <==> Blocked(ring, rec.members, 0)
  {
    hide Blocked, UpsertFrom, Prune;
    UpsertFromExactly(ring, ring, rec, 0);
  }

  /** So, of rows in slots 0, 1, 2, ..., a record can be saved if and only if its member list extends the
      stored one at the end or is cut off there: a save can drop no member but from the end, and reorder none. */
  lemma SaveReformedExactly(ring: Ring, rec: ClusterRecord)
    requires UniqueSlots(ring) && forall w :: w in ring ==> ring[w].ringPosition < |ring.Keys|
    ensures var stored := RingOrder(ring);
            SaveRing(ring, rec).Some? <==> stored <= rec.members || rec.members <= stored
  {
    hide SaveRing, RingOrder, Ordered, UniqueSlots, Blocked;
    SaveFailsExactly(ring, rec);
    DenseSlots(ring, RingOrder(ring));
    ReformedBlocked(ring, rec.members, RingOrder(ring));
  }

  /** stored[i] holds slot i. */
  ghost predicate Consecutive(ring: Ring, stored: seq<WorkerId>) {
    && ring.Keys == Elements(stored)
    && (forall i :: 0 <= i < |stored| ==> stored[i] in ring && ring[stored[i]].ringPosition == i)
  }

  lemma DenseSlots(ring: Ring, stored: seq<WorkerId>)
    requires Ordered(ring, stored) && forall w :: w in ring ==> ring[w].ringPosition < |ring.Keys|
    ensures Consecutive(ring, stored)
  {
    hide Ordered;
    OrderedDistinct(ring, stored);
    OrderedElements(ring, stored);
    forall i | 0 <= i < |stored| ensures stored[i] in ring && ring[stored[i]].ringPosition == i {
      OrderedSlot(ring, stored, i);
    }
  }

  lemma ReformedBlocked(ring: Ring, members: seq<WorkerId>, stored: seq<WorkerId>)
    requires Consecutive(ring, stored)
    ensures Blocked(ring, members, 0) <==> !(stored <= members || members <= stored)
  {
    if stored <= members || members <= stored {
      hide Consecutive;
      forall i: nat, v | i < |members| ensures !Blocks(ring, members, i, v) {
        SlotWritten(ring, members, stored, i, v);
      }
    } else {
      var i := FirstDifference(members, stored);
      assert members[..i + 1] == stored[..i] + [members[i]];
      assert Blocks(ring, members, i, stored[i]);
    }
  }

  lemma SlotWritten(ring: Ring, members: seq<WorkerId>, stored: seq<WorkerId>, i: nat, v: WorkerId)
    requires Consecutive(ring, stored) && i < |members| && (stored <= members || members <= stored)
    ensures v in ring && ring[v].ringPosition == i ==> v in members[..i + 1]
  {
    if v in ring {
      assert v in Elements(stored);
      var j :| 0 <= j < |stored| && stored[j] == v;
      if j == i { assert members[..i + 1][i] == v; }
    }
  }

  lemma {:induction false} FirstDifference(a: seq<WorkerId>, b: seq<WorkerId>) returns (i: nat)
    requires !(a <= b) && !(b <= a)
    ensures i < |a| && i < |b| && a[i] != b[i] && a[..i] == b[..i]
    decreases |a|
  {
    if a[0] != b[0] {
      i := 0;
    } else {
      var rest := FirstDifference(a[1..], b[1..]);
      i := rest + 1;
      assert a[..i] == [a[0]] + a[1..][..rest] && b[..i] == [b[0]] + b[1..][..rest];
    }
  }

  /** Two members as stored by create_cluster. */
  const PAIR: Ring := map[1 := MemberRow(0, None, false, None), 2 := MemberRow(1, None, false, None)]

  /** They can neither change places nor be saved again without the first. */
  lemma PairNotReformed(rec: ClusterRecord)
    requires rec.members == [2, 1] || rec.members == [2]
    ensures UniqueSlots(PAIR) && SaveRing(PAIR, rec).None?
  {
    SaveFailsExactly(PAIR, rec);
    assert Blocks(PAIR, rec.members, 0, 1);
  }

  // ---- Round trips ----

  /** The records the program builds: membership data only about members, addresses non-empty. */
  ghost predicate WellFormed(rec: ClusterRecord) {
    && Distinct(rec.members)
    && rec.ready <= Elements(rec.members)
    && rec.ips.Keys <= Elements(rec.members)
    && "" !in rec.ips.Values
    && (rec.layerWindows.Some? ==> rec.layerWindows.value.Keys <= Elements(rec.members))
  }

  lemma StoredSlots(ring: Ring, rec: ClusterRecord)
    requires Distinct(rec.members) && Stores(ring, rec)
    ensures UniqueSlots(ring) && RingOrder(ring) == rec.members
    ensures |ring.Keys| == |rec.members|
  {
    var members := rec.members;
    forall v, w | v in ring && w in ring && v != w ensures ring[v].ringPosition != ring[w].ringPosition {
      assert v in Elements(members) && w in Elements(members);
      var i :| 0 <= i < |members| && members[i] == v;
      var j :| 0 <= j < |members| && members[j] == w;
      assert ring[members[i]] == MemberValues(rec, i);
      assert ring[members[j]] == MemberValues(rec, j);
    }
    forall i, j | 0 <= i < j < |members| ensures Before(ring, members[i], members[j]) {
      assert members[i] in Elements(members) && members[j] in Elements(members);
      assert ring[members[i]] == MemberValues(rec, i);
      assert ring[members[j]] == MemberValues(rec, j);
    }
    RingOrderUnique(ring, members);
    DistinctCardinality(members);
  }

  lemma StoredValues(ring: Ring, rec: ClusterRecord, w: WorkerId)
    requires Stores(ring, rec) && w in rec.members
    ensures w in ring
    ensures ring[w].ready == (w in rec.ready)
    ensures ring[w].assignedIp == if w in rec.ips then Some(rec.ips[w]) else None
    ensures ring[w].layerWindow ==
            if rec.layerWindows.Some? && w in rec.layerWindows.value then Some(rec.layerWindows.value[w]) else None
  {
    var i :| 0 <= i < |rec.members| && rec.members[i] == w;
    assert ring[rec.members[i]] == MemberValues(rec, i);
  }

  lemma StoredReady(rec: ClusterRecord, ring: Ring)
    requires WellFormed(rec) && Stores(ring, rec)
    ensures ReadyOf(ring) == rec.ready
  {
    forall w ensures w in ReadyOf(ring) <==> w in rec.ready {
      assert w in ring <==> w in Elements(rec.members);
      if w in rec.members { StoredValues(ring, rec, w); }
    }
  }

  lemma StoredIps(rec: ClusterRecord, ring: Ring)
    requires WellFormed(rec) && Stores(ring, rec)
    ensures IpsOf(ring) == rec.ips
  {
    var loaded := IpsOf(ring);
    forall w
      ensures w in loaded <==> w in rec.ips
      ensures w in rec.ips ==> loaded[w] == rec.ips[w]
    {
      assert w in ring <==> w in Elements(rec.members);
      assert w in rec.ips ==> w in Elements(rec.members);
      if w in rec.members { StoredValues(ring, rec, w); }
      if w in rec.ips { assert rec.ips[w] in rec.ips.Values; }
    }
  }

  lemma StoredWindows(rec: ClusterRecord, ring: Ring)
    requires WellFormed(rec) && Stores(ring, rec) && rec.layerWindows.Some?
    ensures WindowsOf(ring) == rec.layerWindows.value
  {
    var loaded := WindowsOf(ring);
    var windows := rec.layerWindows.value;
    forall w
      ensures w in loaded <==> w in windows
      ensures w in windows ==> loaded[w] == windows[w]
    {
      assert w in ring <==> w in Elements(rec.members);
      assert w in windows ==> w in Elements(rec.members);
      if w in rec.members { StoredValues(ring, rec, w); }
    }
  }

  /** Save, then load: the identity on well-formed records, None, {} and zero windows included. */
  lemma LoadAfterSave(rec: ClusterRecord, ring: Ring)
    requires WellFormed(rec) && Stores(ring, rec)
    ensures UniqueSlots(ring)
    ensures LoadRecord(rec.clusterId, RowOf(rec), ring) == rec
  {
    StoredSlots(ring, rec);
    StoredReady(rec, ring);
    StoredIps(rec, ring);
    if rec.layerWindows.Some? { StoredWindows(rec, ring); }
  }

  /** Rows as the program leaves them: slots 0, 1, 2, ..., no empty address, and no layer window
      before the distribution is reported. */
  ghost predicate Compact(row: ClusterRow, ring: Ring) {
    && UniqueSlots(ring)
    && (forall w :: w in ring ==> ring[w].ringPosition < |ring.Keys|)
    && (forall w :: w in ring ==> ring[w].assignedIp != Some(""))
    && (!row.reported ==> forall w :: w in ring ==> ring[w].layerWindow.None?)
  }

  lemma CompactSlots(row: ClusterRow, ring: Ring)
    requires Compact(row, ring)
    ensures UniqueSlots(ring)
  {
  }

  lemma CompactPosition(row: ClusterRow, ring: Ring, i: nat)
    requires Compact(row, ring) && i < |RingOrder(ring)|
    ensures RingOrder(ring)[i] in ring && ring[RingOrder(ring)[i]].ringPosition == i
  {
    var members := RingOrder(ring);
    hide RingOrder, Ordered, UniqueSlots;
    OrderedDistinct(ring, members);
    OrderedSlot(ring, members, i);
  }

  /** Load, change the status, save: the membership rows come back unchanged. */
  lemma SaveAfterLoad(id: ClusterId, row: ClusterRow, ring: Ring, status: ClusterStatus)
    requires Compact(row, ring)
    ensures var rec := LoadRecord(id, row, ring).(status := status);
            SaveRing(ring, rec) == Some(ring) && RowOf(rec) == row.(status := status)
  {
    assert UniqueSlots(ring);
    hide RingOrder, UniqueSlots, SaveRing, Compact, Stores, IpsOf, ReadyOf, WindowsOf;
    var rec := LoadRecord(id, row, ring).(status := status);
    ResaveSucceeds(ring, rec);
    SavedRing(id, row, ring, status, SaveRing(ring, rec).value);
  }

  lemma SavedRing(id: ClusterId, row: ClusterRow, ring: Ring, status: ClusterStatus, saved: Ring)
    requires Compact(row, ring) && Stores(saved, LoadRecord(id, row, ring).(status := status))
    ensures saved == ring
  {
    assert UniqueSlots(ring);
    hide RingOrder, UniqueSlots, Compact, Stores, LoadRecord;
    SavedKeys(id, row, ring, status, saved);
    forall w | w in ring ensures saved[w] == ring[w] {
      var i := RingIndex(ring, w);
      SavedMember(id, row, ring, status, saved, i);
    }
  }

  lemma SavedKeys(id: ClusterId, row: ClusterRow, ring: Ring, status: ClusterStatus, saved: Ring)
    requires UniqueSlots(ring) && Stores(saved, LoadRecord(id, row, ring).(status := status))
    ensures saved.Keys == ring.Keys
  {
    hide RingOrder, UniqueSlots, Stores, IpsOf, ReadyOf, WindowsOf;
    StoredKeys(saved, LoadRecord(id, row, ring).(status := status));
    OrderedElements(ring, RingOrder(ring));
  }

  lemma RingIndex(ring: Ring, w: WorkerId) returns (i: nat)
    requires UniqueSlots(ring) && w in ring
    ensures i < |RingOrder(ring)| && RingOrder(ring)[i] == w
  {
    OrderedElements(ring, RingOrder(ring));
    hide RingOrder, UniqueSlots;
    assert w in Elements(RingOrder(ring));
    i :| 0 <= i < |RingOrder(ring)| && RingOrder(ring)[i] == w;
  }

  lemma StoredKeys(ring: Ring, rec: ClusterRecord)
    requires Stores(ring, rec)
    ensures ring.Keys == Elements(rec.members)
  {
  }

  lemma SavedMember(id: ClusterId, row: ClusterRow, ring: Ring, status: ClusterStatus, saved: Ring, i: nat)
    requires Compact(row, ring) && i < |RingOrder(ring)|
    requires Stores(saved, LoadRecord(id, row, ring).(status := status))
    ensures var w := RingOrder(ring)[i];
            w in saved && w in ring && saved[w] == ring[w]
  {
    var rec := LoadRecord(id, row, ring).(status := status);
    var w := rec.members[i];
    CompactPosition(row, ring, i);
    StoredValues(saved, rec, w);
    assert saved[rec.members[i]] == MemberValues(rec, i);
    hide RingOrder, UniqueSlots, Stores;
  }

  /** What create_cluster stores for a new record is compact. */
  lemma StoredIsCompact(rec: ClusterRecord, ring: Ring)
    requires WellFormed(rec) && Stores(ring, rec)
    ensures Compact(RowOf(rec), ring)
  {
    StoredSlots(ring, rec);
    forall w | w in ring
      ensures ring[w].ringPosition < |ring.Keys|
      ensures ring[w].assignedIp != Some("")
      ensures rec.layerWindows.None? ==> ring[w].layerWindow.None?
    {
      assert w in Elements(rec.members);
      var i :| 0 <= i < |rec.members| && rec.members[i] == w;
      assert ring[rec.members[i]] == MemberValues(rec, i);
      if w in rec.ips { assert rec.ips[w] in rec.ips.Values; }
    }
  }
}
