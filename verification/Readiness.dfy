/** The readiness gate (store.py: mark_member_ready, set_cluster_distribution): targeted row
    updates, the record operations they implement, and whole sequences of reports. */
module Readiness {
  import opened Basics
  import opened Models
  import opened Rings

  /** A cluster as stored: its row and its membership rows. */
  datatype Stored = Stored(row: ClusterRow, ring: Ring)

  function Load(id: ClusterId, s: Stored): ClusterRecord
    requires UniqueSlots(s.ring)
  {
    LoadRecord(id, s.row, s.ring)
  }

  // ---- The gate ----

  /** len(ready) >= len(members) and a distribution has been reported. */
  predicate GateOpen(rec: ClusterRecord) {
    |rec.ready| >= |rec.members| && rec.layerWindows.Some?
  }

  /** The re-read and the conditional flip to live that end both updates. */
  function Regate(s: Stored): Stored
    requires UniqueSlots(s.ring)
  {
    if GateOpen(Load(0, s)) && !s.row.status.Terminated? then s.(row := s.row.(status := Live)) else s
  }

  /** Counting suffices: the ready set never leaves the member set. */
  lemma GateMeansEveryMember(id: ClusterId, s: Stored)
    requires UniqueSlots(s.ring)
    ensures GateOpen(Load(id, s)) <==> s.row.reported && forall w :: w in s.ring ==> s.ring[w].ready
  {
    var rec := Load(id, s);
    OrderedDistinct(s.ring, rec.members);
    assert rec.ready <= s.ring.Keys;
    SubsetCardinality(rec.ready, s.ring.Keys);
    if forall w :: w in s.ring ==> s.ring[w].ready {
      assert rec.ready == s.ring.Keys;
    }
    if |rec.ready| >= |rec.members| {
      assert forall w :: w in s.ring ==> w in rec.ready;
    }
  }

  // ---- Row updates ----

  /** UPDATE cluster_members SET ready = 1 WHERE worker_id = w: no row, no change. */
  function MarkRow(ring: Ring, w: WorkerId): Ring {
    if w in ring then ring[w := ring[w].(ready := true)] else ring
  }

  /** Every row's window is the reported one, or NULL for a worker the report leaves out. */
  function SetWindows(ring: Ring, windows: map<WorkerId, nat>): Ring {
    map w | w in ring :: ring[w].(layerWindow := if w in windows then Some(windows[w]) else None)
  }

  lemma MarkRowSlots(ring: Ring, w: WorkerId)
    requires UniqueSlots(ring)
    ensures UniqueSlots(MarkRow(ring, w))
  {
  }

  lemma SetWindowsSlots(ring: Ring, windows: map<WorkerId, nat>)
    requires UniqueSlots(ring)
    ensures UniqueSlots(SetWindows(ring, windows))
  {
  }

  function MarkReady(s: Stored, w: WorkerId): Stored
    requires UniqueSlots(s.ring)
  {
    if s.row.status.Terminated? then s
    else
      MarkRowSlots(s.ring, w);
      Regate(s.(ring := MarkRow(s.ring, w)))
  }

  function SetDistribution(s: Stored, windows: Option<map<WorkerId, nat>>): Stored
    requires UniqueSlots(s.ring)
  {
    if s.row.status.Terminated? then s
    else
      var written := if windows.Some? then windows.value else map[];
      SetWindowsSlots(s.ring, written);
      Regate(Stored(s.row.(reported := windows.Some?), SetWindows(s.ring, written)))
  }

  // ---- The record view ----

  function Gate(rec: ClusterRecord): ClusterRecord {
    if GateOpen(rec) then rec.(status := Live) else rec
  }

  function ReadyRecord(rec: ClusterRecord, w: WorkerId): ClusterRecord {
    if rec.status.Terminated? then rec
    else Gate(rec.(ready := rec.ready + if w in rec.members then {w} else {}))
  }

  function Restrict(windows: map<WorkerId, nat>, members: seq<WorkerId>): map<WorkerId, nat> {
    map w | w in windows && w in members :: windows[w]
  }

  function DistributionRecord(rec: ClusterRecord, windows: Option<map<WorkerId, nat>>): ClusterRecord {
    if rec.status.Terminated? then rec
    else Gate(rec.(layerWindows :=
                     if windows.Some? then Some(Restrict(windows.value, rec.members)) else None))
  }

  /** Ring order depends on the positions only. */
  lemma SameSlotsSameOrder(a: Ring, b: Ring)
    requires UniqueSlots(a) && UniqueSlots(b) && a.Keys == b.Keys
    requires forall w :: w in a ==> a[w].ringPosition == b[w].ringPosition
    ensures RingOrder(a) == RingOrder(b)
  {
    var members := RingOrder(b);
    forall i, j | 0 <= i < j < |members| ensures Before(a, members[i], members[j]) {
      assert Before(b, members[i], members[j]);
    }
    RingOrderUnique(a, members);
  }

  lemma SameIps(a: Ring, b: Ring)
    requires a.Keys == b.Keys
    requires forall w :: w in a ==> a[w].assignedIp == b[w].assignedIp
    ensures IpsOf(a) == IpsOf(b)
  {
    var left, right := IpsOf(a), IpsOf(b);
    forall w
      ensures w in left <==> w in right
      ensures w in left ==> left[w] == right[w]
    {
      assert w in a <==> w in b;
    }
  }

  lemma SameReady(a: Ring, b: Ring)
    requires a.Keys == b.Keys
    requires forall w :: w in a ==> a[w].ready == b[w].ready
    ensures ReadyOf(a) == ReadyOf(b)
  {
    forall w ensures w in ReadyOf(a) <==> w in ReadyOf(b) {
      assert w in a <==> w in b;
    }
  }

  lemma SameWindows(a: Ring, b: Ring)
    requires a.Keys == b.Keys
    requires forall w :: w in a ==> a[w].layerWindow == b[w].layerWindow
    ensures WindowsOf(a) == WindowsOf(b)
  {
    var left, right := WindowsOf(a), WindowsOf(b);
    forall w
      ensures w in left <==> w in right
      ensures w in left ==> left[w] == right[w]
    {
      assert w in a <==> w in b;
    }
  }

  lemma MarkRowLoads(ring: Ring, w: WorkerId)
    requires UniqueSlots(ring)
    ensures UniqueSlots(MarkRow(ring, w)) && RingOrder(MarkRow(ring, w)) == RingOrder(ring)
    ensures ReadyOf(MarkRow(ring, w)) == ReadyOf(ring) + if w in ring then {w} else {}
    ensures IpsOf(MarkRow(ring, w)) == IpsOf(ring)
    ensures WindowsOf(MarkRow(ring, w)) == WindowsOf(ring)
  {
    var marked := MarkRow(ring, w);
    assert marked.Keys == ring.Keys;
    SameSlotsSameOrder(marked, ring);
    SameIps(marked, ring);
    SameWindows(marked, ring);
    MarkRowReady(ring, w);
  }

  lemma MarkRowReady(ring: Ring, w: WorkerId)
    ensures ReadyOf(MarkRow(ring, w)) == ReadyOf(ring) + if w in ring then {w} else {}
  {
    var marked := MarkRow(ring, w);
    forall v ensures v in ReadyOf(marked) <==> v in ReadyOf(ring) || (w in ring && v == w) {
      assert v in marked <==> v in ring;
    }
  }

  lemma WrittenWindows(ring: Ring, windows: map<WorkerId, nat>, members: seq<WorkerId>)
    requires Elements(members) == ring.Keys
    ensures WindowsOf(SetWindows(ring, windows)) == Restrict(windows, members)
  {
    var left, right := WindowsOf(SetWindows(ring, windows)), Restrict(windows, members);
    forall w
      ensures w in left <==> w in right
      ensures w in left ==> left[w] == right[w]
    {
      assert w in Elements(members) <==> w in ring;
    }
  }

  lemma SetWindowsLoads(ring: Ring, windows: map<WorkerId, nat>)
    requires UniqueSlots(ring)
    ensures UniqueSlots(SetWindows(ring, windows)) && RingOrder(SetWindows(ring, windows)) == RingOrder(ring)
    ensures ReadyOf(SetWindows(ring, windows)) == ReadyOf(ring)
    ensures IpsOf(SetWindows(ring, windows)) == IpsOf(ring)
    ensures WindowsOf(SetWindows(ring, windows)) == Restrict(windows, RingOrder(ring))
  {
    var written := SetWindows(ring, windows);
    assert written.Keys == ring.Keys;
    SameSlotsSameOrder(written, ring);
    SameIps(written, ring);
    WrittenWindows(ring, windows, RingOrder(ring));
    SameReady(written, ring);
  }

  lemma RegateLoads(id: ClusterId, s: Stored)
    requires UniqueSlots(s.ring) && !s.row.status.Terminated?
    ensures Regate(s).ring == s.ring && Load(id, Regate(s)) == Gate(Load(id, s))
  {
  }

  /** The one-row UPDATE is "add w to the ready set if it is a member", then the gate. */
  lemma MarkReadyRefines(id: ClusterId, s: Stored, w: WorkerId)
    requires UniqueSlots(s.ring)
    ensures UniqueSlots(MarkReady(s, w).ring)
    ensures Load(id, MarkReady(s, w)) == ReadyRecord(Load(id, s), w)
  {
    if !s.row.status.Terminated? {
      MarkRowLoads(s.ring, w);
      var marked := s.(ring := MarkRow(s.ring, w));
      assert w in s.ring <==> w in Elements(RingOrder(s.ring));
      assert Load(id, marked) ==
             Load(id, s).(ready := ReadyOf(s.ring) + if w in RingOrder(s.ring) then {w} else {});
      RegateLoads(id, marked);
    }
  }

  /** The per-row updates and the NOT IN clearing are "replace the windows by the report restricted
      to the members", then the gate; None, {} and zero windows stay apart. */
  lemma SetDistributionRefines(id: ClusterId, s: Stored, windows: Option<map<WorkerId, nat>>)
    requires UniqueSlots(s.ring)
    ensures UniqueSlots(SetDistribution(s, windows).ring)
    ensures Load(id, SetDistribution(s, windows)) == DistributionRecord(Load(id, s), windows)
  {
    if !s.row.status.Terminated? {
      var written := if windows.Some? then windows.value else map[];
      SetWindowsLoads(s.ring, written);
      var stored := Stored(s.row.(reported := windows.Some?), SetWindows(s.ring, written));
      assert Load(id, stored) == Load(id, s).(layerWindows :=
          if windows.Some? then Some(Restrict(written, RingOrder(s.ring))) else None);
      RegateLoads(id, stored);
    }
  }

  // ---- Sequences of reports ----

  datatype Report = ReadyReport(worker: WorkerId) | DistributionReport(windows: map<WorkerId, nat>)

  function Receive(rec: ClusterRecord, report: Report): ClusterRecord {
    match report
    case ReadyReport(w) => ReadyRecord(rec, w)
    case DistributionReport(windows) => DistributionRecord(rec, Some(windows))
  }

  /** All reports, oldest first. */
  function ReceiveAll(rec: ClusterRecord, reports: seq<Report>): ClusterRecord {
    if reports == [] then rec
    else Receive(ReceiveAll(rec, reports[..|reports| - 1]), reports[|reports| - 1])
  }

  function Reporters(reports: seq<Report>): set<WorkerId> {
    set r | r in reports && r.ReadyReport? :: r.worker
  }

  predicate Distributed(reports: seq<Report>) {
    exists r :: r in reports && r.DistributionReport?
  }

  /** The newest distribution. */
  function LastWindows(reports: seq<Report>): map<WorkerId, nat>
    requires Distributed(reports)
  {
    var last := reports[|reports| - 1];
    if last.DistributionReport? then last.windows
    else
      assert reports == reports[..|reports| - 1] + [last];
      LastWindows(reports[..|reports| - 1])
  }

  /** What a cluster formed as `rec` has recorded after the reports. */
  ghost predicate Reflects(rec: ClusterRecord, reports: seq<Report>, now: ClusterRecord) {
    && now == rec.(status := now.status, ready := now.ready, layerWindows := now.layerWindows)
    && now.ready == Elements(rec.members) * Reporters(reports)
    && (now.layerWindows.Some? <==> Distributed(reports))
    && (Distributed(reports) ==> now.layerWindows.value == Restrict(LastWindows(reports), rec.members))
    && !now.status.Terminated?
  }

  /** Receiving a report, short of the gate. */
  function Note(rec: ClusterRecord, report: Report): ClusterRecord {
    match report
    case ReadyReport(w) => rec.(ready := rec.ready + if w in rec.members then {w} else {})
    case DistributionReport(windows) => rec.(layerWindows := Some(Restrict(windows, rec.members)))
  }

  lemma NoteReflects(rec: ClusterRecord, before: seq<Report>, last: Report, was: ClusterRecord)
    requires Reflects(rec, before, was)
    ensures Reflects(rec, before + [last], Note(was, last))
  {
    ReportersSnoc(before, last);
    DistributedSnoc(before, last);
    var w := if last.ReadyReport? then last.worker else 0;
    assert w in rec.members <==> w in Elements(rec.members);
  }

  ghost predicate Complete(rec: ClusterRecord, reports: seq<Report>) {
    Elements(rec.members) <= Reporters(reports) && Distributed(reports)
  }

  lemma ReflectedGate(rec: ClusterRecord, reports: seq<Report>, now: ClusterRecord)
    requires Distinct(rec.members) && Reflects(rec, reports, now)
    ensures GateOpen(now) <==> Complete(rec, reports)
  {
    DistinctCardinality(rec.members);
    SubsetCardinality(now.ready, Elements(rec.members));
    if Elements(rec.members) <= Reporters(reports) {
      assert now.ready == Elements(rec.members);
    }
  }

  lemma OneMoreReport(rec: ClusterRecord, before: seq<Report>, last: Report, was: ClusterRecord)
    requires Distinct(rec.members) && Reflects(rec, before, was)
    requires was.status.Live? <==> Complete(rec, before)
    ensures Reflects(rec, before + [last], Receive(was, last))
    ensures Receive(was, last).status.Live? <==> Complete(rec, before + [last])
  {
    NoteReflects(rec, before, last, was);
    ReflectedGate(rec, before + [last], Note(was, last));
    ReportersSnoc(before, last);
    DistributedSnoc(before, last);
  }

  lemma DistributedSnoc(before: seq<Report>, last: Report)
    ensures Distributed(before + [last]) <==> Distributed(before) || last.DistributionReport?
    ensures Distributed(before + [last]) ==>
              (LastWindows(before + [last]) ==
               if last.DistributionReport? then last.windows else LastWindows(before))
  {
    var all := before + [last];
    assert all[..|all| - 1] == before && all[|all| - 1] == last;
    assert forall r :: r in all <==> r in before || r == last;
    if last.DistributionReport? {
      assert last in all;
    } else if Distributed(before) {
      var r :| r in before && r.DistributionReport?;
      assert r in all;
    }
  }

  /** A cluster just formed, under any finite sequence of reports, in any order, with repeats and
      with reports by non-members: it is live exactly when every member has reported ready and
      some distribution has arrived. */
  lemma {:induction false} LiveExactlyWhenComplete(rec: ClusterRecord, reports: seq<Report>)
    requires Distinct(rec.members) && rec.status.Assembling? && rec.ready == {} && rec.layerWindows.None?
    ensures Reflects(rec, reports, ReceiveAll(rec, reports))
    ensures ReceiveAll(rec, reports).status.Live? <==> Complete(rec, reports)
    decreases |reports|
  {
    if reports == [] {
    } else {
      var before := reports[..|reports| - 1];
      var last := reports[|reports| - 1];
      assert reports == before + [last];
      LiveExactlyWhenComplete(rec, before);
      OneMoreReport(rec, before, last, ReceiveAll(rec, before));
    }
  }

  lemma ReportersSnoc(before: seq<Report>, last: Report)
    ensures Reporters(before + [last]) ==
            Reporters(before) + if last.ReadyReport? then {last.worker} else {}
  {
    var all := before + [last];
    assert forall r :: r in all <==> r in before || r == last;
    forall w ensures w in Reporters(all) <==>
                     w in Reporters(before) || (last.ReadyReport? && w == last.worker)
    {
      if w in Reporters(before) {
        assert ReadyReport(w) in all;
      }
      if last.ReadyReport? && w == last.worker {
        assert last in all && last.worker == w;
      }
    }
  }

  /** The same reports as row updates. */
  function Process(s: Stored, report: Report): Stored
    requires UniqueSlots(s.ring)
  {
    match report
    case ReadyReport(w) => MarkReady(s, w)
    case DistributionReport(windows) => SetDistribution(s, Some(windows))
  }

  function ProcessAll(s: Stored, reports: seq<Report>): (after: Stored)
    requires UniqueSlots(s.ring)
    ensures UniqueSlots(after.ring)
  {
    if reports == [] then s
    else
      var before := ProcessAll(s, reports[..|reports| - 1]);
      ProcessRefines(0, before, reports[|reports| - 1]);
      Process(before, reports[|reports| - 1])
  }

  lemma ProcessRefines(id: ClusterId, s: Stored, report: Report)
    requires UniqueSlots(s.ring)
    ensures UniqueSlots(Process(s, report).ring)
    ensures Load(id, Process(s, report)) == Receive(Load(id, s), report)
  {
    hide Load, MarkReady, SetDistribution, ReadyRecord, DistributionRecord, UniqueSlots;
    match report
    case ReadyReport(w) => MarkReadyRefines(id, s, w);
    case DistributionReport(windows) => SetDistributionRefines(id, s, Some(windows));
  }

  lemma {:induction false} ProcessAllRefines(id: ClusterId, s: Stored, reports: seq<Report>)
    requires UniqueSlots(s.ring)
    ensures Load(id, ProcessAll(s, reports)) == ReceiveAll(Load(id, s), reports)
    decreases |reports|
  {
    hide Load, Process, Receive, UniqueSlots;
    if reports != [] {
      ProcessAllRefines(id, s, reports[..|reports| - 1]);
      ProcessRefines(id, ProcessAll(s, reports[..|reports| - 1]), reports[|reports| - 1]);
    }
  }

  /** The stored rows of a new cluster: live exactly when every member has reported and a distribution
      has arrived. */
  lemma StoredLiveExactlyWhenComplete(id: ClusterId, s: Stored, reports: seq<Report>)
    requires UniqueSlots(s.ring) && s.row.status.Assembling? && !s.row.reported
    requires forall w :: w in s.ring ==> !s.ring[w].ready
    ensures Reflects(Load(id, s), reports, Load(id, ProcessAll(s, reports)))
    ensures ProcessAll(s, reports).row.status.Live? <==> s.ring.Keys <= Reporters(reports) && Distributed(reports)
  {
    OrderedDistinct(s.ring, RingOrder(s.ring));
    assert Elements(RingOrder(s.ring)) == s.ring.Keys;
    assert ReadyOf(s.ring) == {};
    hide RingOrder, UniqueSlots, Ordered, IpsOf, WindowsOf, ReadyOf;
    hide ReceiveAll, ProcessAll, Reflects, Reporters, Distributed;
    ProcessAllRefines(id, s, reports);
    LiveExactlyWhenComplete(Load(id, s), reports);
  }

  /** "A live cluster's gate is open" survives a distribution report of any kind if and only if the
      report is a dictionary or the cluster is not live. */
  lemma LiveGateExactly(rec: ClusterRecord, windows: Option<map<WorkerId, nat>>)
    requires rec.status.Live? ==> GateOpen(rec)
    ensures var after := DistributionRecord(rec, windows);
            (after.status.Live? ==> GateOpen(after)) <==> windows.Some? || !rec.status.Live?
  {
  }

  /** The same for the stored rows. */
  lemma StoredLiveGateExactly(id: ClusterId, s: Stored, windows: Option<map<WorkerId, nat>>)
    requires UniqueSlots(s.ring) && (s.row.status.Live? ==> GateOpen(Load(id, s)))
    ensures UniqueSlots(SetDistribution(s, windows).ring)
    ensures var after := SetDistribution(s, windows);
            (after.row.status.Live? ==> GateOpen(Load(id, after))) <==> windows.Some? || !s.row.status.Live?
  {
    hide SetDistribution, UniqueSlots, IpsOf, WindowsOf, ReadyOf, DistributionRecord, GateOpen;
    SetDistributionRefines(id, s, windows);
    LiveGateExactly(Load(id, s), windows);
  }

  /** The failing case: withdrawing the distribution (None) of a live cluster clears it without
      demoting the cluster. */
  lemma WithdrawnDistributionStaysLive(rec: ClusterRecord)
    requires rec.status.Live?
    ensures DistributionRecord(rec, None) == rec.(layerWindows := None)
    ensures !GateOpen(DistributionRecord(rec, None))
  {
  }
}
