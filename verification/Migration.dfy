/** Moving membership out of JSON (store.py: _migrate_schema, _populate_cluster_members_from_json,
    _migrate_from_json): in place from the four text columns of an old `clusters` table, or from a
    legacy snapshot file. */
module Migration {
  import opened Basics
  import opened Models
  import opened Rings

  // ---- Old data ----

  /** What json.loads makes of a text: a ValueError, null, the shape the column is meant to have (for
      members and ready any iterable counts), or something else. */
  datatype Json<T> = NotJson | JsonNull | Other | Data(value: T)

  datatype Column<T> = SqlNull | Text(json: Json<T>)

  datatype LegacyColumns = LegacyColumns(
    members: Column<seq<WorkerId>>,
    ready: Column<set<WorkerId>>,
    ips: Column<map<WorkerId, string>>,
    windows: Column<map<WorkerId, int>>)

  /** The membership that either source describes; windows is None for "not reported". */
  datatype Membership = Membership(
    members: seq<WorkerId>,
    ready: set<WorkerId>,
    ips: map<WorkerId, string>,
    windows: Option<map<WorkerId, int>>)

  /** The decoding of one row; None when enumerate(members) raises, outside every try. */
  function Decode(cols: LegacyColumns): Option<Membership> {
    if cols.members == Text(JsonNull) || cols.members == Text(Other) then None
    else Some(Membership(
      if cols.members.Text? && cols.members.json.Data? then cols.members.json.value else [],
      if cols.ready.Text? && cols.ready.json.Data? then cols.ready.json.value else {},
      if cols.ips.Text? && cols.ips.json.Data? then cols.ips.json.value else map[],
      if cols.windows.SqlNull? || cols.windows.json.NotJson? || cols.windows.json.JsonNull? then None
      else Some(if cols.windows.json.Data? then cols.windows.json.value else map[])))
  }

  /** Before the conversion, a live cluster whose window column is NULL gets an explicit empty report. */
  function Backfill(row: ClusterRow, cols: LegacyColumns): LegacyColumns {
    if row.status.Live? && cols.windows.SqlNull? then cols.(windows := Text(Data(map[]))) else cols
  }

  // ---- INSERT OR IGNORE ----

  predicate Negative(m: Membership, w: WorkerId) {
    m.windows.Some? && w in m.windows.value && m.windows.value[w] < 0
  }

  function NewRow(m: Membership, w: WorkerId, i: nat): MemberRow
    requires !Negative(m, w)
  {
    MemberRow(i,
              if w in m.ips then Some(m.ips[w]) else None,
              w in m.ready,
              if m.windows.Some? && w in m.windows.value then Some(m.windows.value[w]) else None)
  }

  predicate SlotTaken(ring: Ring, i: nat) {
    exists v :: v in ring && ring[v].ringPosition == i
  }

  /** The row of the i-th listed member is skipped if it breaks the primary key, the slot constraint
      or the CHECK on layer_window. */
  function Insert(ring: Ring, m: Membership, i: nat): Ring
    requires i < |m.members|
  {
    var w := m.members[i];
    if w in ring || SlotTaken(ring, i) || Negative(m, w) then ring else ring[w := NewRow(m, w, i)]
  }

  function InsertFirst(ring: Ring, m: Membership, n: nat): Ring
    requires n <= |m.members|
  {
    if n == 0 then ring else Insert(InsertFirst(ring, m, n - 1), m, n - 1)
  }

  // ---- In place ----

  /** The tables involved; `legacy` is present while members_json is still a column. */
  datatype Catalog = Catalog(
    rows: map<ClusterId, ClusterRow>,
    rings: map<ClusterId, Ring>,
    legacy: Option<map<ClusterId, LegacyColumns>>)

  ghost predicate Shaped(s: Catalog) {
    && s.rings.Keys == s.rows.Keys
    && (s.legacy.Some? ==> s.legacy.value.Keys == s.rows.Keys)
  }

  function MigratedRow(row: ClusterRow, cols: LegacyColumns): ClusterRow {
    var m := Decode(Backfill(row, cols));
    row.(reported := row.reported || (m.Some? && m.value.windows.Some?))
  }

  function MigratedRing(row: ClusterRow, cols: LegacyColumns, ring: Ring): Ring {
    match Decode(Backfill(row, cols))
    case None => ring
    case Some(m) => InsertFirst(ring, m, |m.members|)
  }

  predicate Undecodable(cols: map<ClusterId, LegacyColumns>) {
    exists c :: c in cols && Decode(cols[c]).None?
  }

  function MigratedRows(rows: map<ClusterId, ClusterRow>,
                        cols: map<ClusterId, LegacyColumns>): map<ClusterId, ClusterRow>
  {
    map c | c in rows && c in cols :: MigratedRow(rows[c], cols[c])
  }

  function MigratedRings(rows: map<ClusterId, ClusterRow>, cols: map<ClusterId, LegacyColumns>,
                         rings: map<ClusterId, Ring>): map<ClusterId, Ring>
  {
    map c | c in rows && c in cols && c in rings :: MigratedRing(rows[c], cols[c], rings[c])
  }

  /** _migrate_schema; None when it raises, and then the transaction is rolled back. */
  function Migrate(s: Catalog): Option<Catalog> {
    if s.legacy.None? then Some(s)
    else if Undecodable(s.legacy.value) then None
    else Some(Catalog(MigratedRows(s.rows, s.legacy.value), MigratedRings(s.rows, s.legacy.value, s.rings), None))
  }

  class Database {
    var rows: map<ClusterId, ClusterRow>
    var rings: map<ClusterId, Ring>
    var legacy: Option<map<ClusterId, LegacyColumns>>

    ghost function View(): Catalog
      reads this
    {
      Catalog(rows, rings, legacy)
    }

    constructor (s: Catalog)
      ensures View() == s
    {
      rows, rings, legacy := s.rows, s.rings, s.legacy;
    }

    method MigrateSchema() returns (ok: bool)
      requires Shaped(View())
      modifies this
      ensures ok == Migrate(old(View())).Some?
      ensures View() == if ok then Migrate(old(View())).value else old(View())
    {
      if legacy.None? {
        return true;
      }
      var newRows, newRings;
      ok, newRows, newRings := ConvertClusters(rows, rings, legacy.value);
      if ok {
        rows, rings, legacy := newRows, newRings, None;
      }
    }

    /** The loop over the clusters, in whatever order the engine returns them. */
    static method ConvertClusters(rows: map<ClusterId, ClusterRow>, rings: map<ClusterId, Ring>,
                                  columns: map<ClusterId, LegacyColumns>)
      returns (ok: bool, newRows: map<ClusterId, ClusterRow>, newRings: map<ClusterId, Ring>)
      requires rings.Keys == rows.Keys && columns.Keys == rows.Keys
      ensures ok == !Undecodable(columns)
      ensures ok ==> newRows == MigratedRows(rows, columns) && newRings == MigratedRings(rows, columns, rings)
    {
      hide Decode, Backfill, InsertFirst, MigratedRow, MigratedRing;
      newRows, newRings := map[], map[];
      var rest := rows.Keys;
      while rest != {}
        invariant rest <= rows.Keys
        invariant newRows.Keys == rows.Keys - rest && newRings.Keys == rows.Keys - rest
        invariant forall c :: c in newRows ==> Decode(columns[c]).Some?
        invariant forall c :: c in newRows ==> newRows[c] == MigratedRow(rows[c], columns[c])
        invariant forall c :: c in newRings ==> newRings[c] == MigratedRing(rows[c], columns[c], rings[c])
        decreases rest
      {
        var c :| c in rest;
        BackfillDecodes(rows[c], columns[c]);
        var m := Decode(Backfill(rows[c], columns[c]));
        if m.None? {
          return false, map[], map[];
        }
        MigratedCluster(rows[c], columns[c], rings[c], m.value);
        var ring := Populate(rings[c], m.value);
        newRings := newRings[c := ring];
        newRows := newRows[c := if m.value.windows.Some? then rows[c].(reported := true) else rows[c]];
        rest := rest - {c};
      }
      ok := true;
    }

    static method Populate(before: Ring, m: Membership) returns (ring: Ring)
      ensures ring == InsertFirst(before, m, |m.members|)
    {
      ring := before;
      for i := 0 to |m.members|
        invariant ring == InsertFirst(before, m, i)
      {
        ring := Insert(ring, m, i);
      }
    }
  }

  lemma MigratedCluster(row: ClusterRow, cols: LegacyColumns, ring: Ring, m: Membership)
    requires Decode(Backfill(row, cols)) == Some(m)
    ensures MigratedRing(row, cols, ring) == InsertFirst(ring, m, |m.members|)
    ensures MigratedRow(row, cols) == if m.windows.Some? then row.(reported := true) else row
  {
    hide Decode, Backfill;
  }

  lemma BackfillDecodes(row: ClusterRow, cols: LegacyColumns)
    ensures Decode(Backfill(row, cols)).Some? <==> Decode(cols).Some?
  {
  }

  // ---- What ends up in the membership table ----

  function FirstIndex(s: seq<WorkerId>, w: WorkerId): (i: nat)
    requires w in s
    ensures i < |s| && s[i] == w
    ensures forall k :: 0 <= k < i ==> s[k] != w
  {
    if s[0] == w then 0
    else
      var j := FirstIndex(s[1..], w);
      assert forall k :: 0 < k < j + 1 ==> s[k] == s[1..][k - 1];
      j + 1
  }

  /** The rows after the first n listed members: one for each name, at the index it first has. */
  ghost function Listed(m: Membership, n: nat): Ring
    requires n <= |m.members|
  {
    map w | w in m.members[..n] && w in m.members && !Negative(m, w) :: NewRow(m, w, FirstIndex(m.members, w))
  }

  lemma FirstIndexBelow(s: seq<WorkerId>, w: WorkerId, n: nat)
    requires n <= |s| && w in s[..n]
    ensures w in s && FirstIndex(s, w) < n
  {
    var k :| 0 <= k < n && s[..n][k] == w;
    assert s[k] == w;
  }

  lemma FirstIndexNew(s: seq<WorkerId>, j: nat)
    requires j < |s| && s[j] !in s[..j]
    ensures FirstIndex(s, s[j]) == j
  {
    forall k | 0 <= k < j ensures s[k] != s[j] {
      assert s[..j][k] == s[k];
    }
  }

  lemma ListedKnown(m: Membership, j: nat)
    requires j < |m.members| && m.members[j] in m.members[..j]
    ensures Listed(m, j + 1) == Listed(m, j)
  {
    assert m.members[..j + 1] == m.members[..j] + [m.members[j]];
  }

  lemma ListedNew(m: Membership, j: nat)
    requires j < |m.members| && m.members[j] !in m.members[..j]
    ensures Listed(m, j + 1) == if Negative(m, m.members[j]) then Listed(m, j)
                                else Listed(m, j)[m.members[j] := NewRow(m, m.members[j], j)]
  {
    hide FirstIndex, NewRow, Negative;
    assert m.members[..j + 1] == m.members[..j] + [m.members[j]];
    FirstIndexNew(m.members, j);
    var before, after := Listed(m, j), Listed(m, j + 1);
    forall w
      ensures w in after <==> w in before || (w == m.members[j] && !Negative(m, w))
      ensures w in before && w != m.members[j] ==> after[w] == before[w]
    {
    }
  }

  lemma ListedSlots(m: Membership, n: nat)
    requires n <= |m.members|
    ensures UniqueSlots(Listed(m, n))
    ensures forall w :: w in Listed(m, n) ==> Listed(m, n)[w].ringPosition < n
  {
    forall w | w in Listed(m, n) ensures Listed(m, n)[w].ringPosition < n {
      FirstIndexBelow(m.members, w, n);
    }
  }

  /** A member whose row an earlier attempt inserted, or refused, is skipped. */
  lemma InsertAgain(m: Membership, k: nat, j: nat)
    requires j < k <= |m.members|
    ensures Insert(Listed(m, k), m, j) == Listed(m, k)
  {
    hide FirstIndex, NewRow, SlotTaken;
    assert m.members[..k][j] == m.members[j];
    assert m.members[j] in m.members[..k];
    assert m.members[j] in Listed(m, k) || Negative(m, m.members[j]);
  }

  lemma InsertNext(m: Membership, j: nat)
    requires j < |m.members|
    ensures Insert(Listed(m, j), m, j) == Listed(m, j + 1)
  {
    var ring := Listed(m, j);
    if m.members[j] in m.members[..j] {
      ListedKnown(m, j);
      assert m.members[j] in ring || Negative(m, m.members[j]);
      hide Listed, NewRow, SlotTaken;
    } else {
      ListedNew(m, j);
      ListedSlots(m, j);
      assert m.members[j] !in ring;
      hide Listed, NewRow;
      assert !SlotTaken(ring, j);
    }
  }

  /** Inserting from the start over what an earlier, interrupted attempt left. */
  lemma {:induction false} InsertFirstResumes(m: Membership, k: nat, n: nat)
    requires k <= |m.members| && n <= |m.members|
    ensures InsertFirst(Listed(m, k), m, n) == Listed(m, if n < k then k else n)
  {
    hide Listed, Insert;
    if n > 0 {
      InsertFirstResumes(m, k, n - 1);
      if n - 1 < k {
        InsertAgain(m, k, n - 1);
      } else {
        InsertNext(m, n - 1);
      }
    }
  }

  /** Re-running after a partial failure changes nothing: no duplicate, no failure, same rows. */
  lemma PopulateResumes(m: Membership, k: nat)
    requires k <= |m.members|
    ensures InsertFirst(InsertFirst(map[], m, k), m, |m.members|) == InsertFirst(map[], m, |m.members|)
    ensures InsertFirst(map[], m, |m.members|) == Listed(m, |m.members|)
  {
    assert Listed(m, 0) == map[];
    InsertFirstResumes(m, 0, k);
    InsertFirstResumes(m, k, |m.members|);
    InsertFirstResumes(m, 0, |m.members|);
  }

  /** Every name once, in the order of first occurrence, except those the CHECK refuses. */
  ghost predicate CarriesMembers(members: seq<WorkerId>, m: Membership) {
    && (forall w :: w in members <==> w in m.members && !Negative(m, w))
    && (forall i, j :: 0 <= i < j < |members| && members[i] in m.members && members[j] in m.members ==>
          FirstIndex(m.members, members[i]) < FirstIndex(m.members, members[j]))
  }

  function Nonempty(ips: map<WorkerId, string>, members: seq<WorkerId>): map<WorkerId, string> {
    map w | w in ips && ips[w] != "" && w in members :: ips[w]
  }

  function WindowsWithin(m: Membership, members: seq<WorkerId>): map<WorkerId, nat> {
    if m.windows.None? then map[]
    else map w | w in m.windows.value && m.windows.value[w] >= 0 && w in members :: m.windows.value[w]
  }

  /** The record is the membership, as far as the table can hold it. */
  ghost predicate Carries(rec: ClusterRecord, m: Membership, row: ClusterRow) {
    && rec == ClusterRecord(rec.clusterId, row.model, row.subnet, rec.members, row.status,
                            m.ready * Elements(rec.members), row.createdAt, Nonempty(m.ips, rec.members),
                            if row.reported then Some(WindowsWithin(m, rec.members)) else None)
    && CarriesMembers(rec.members, m)
  }

  lemma ListedMembers(m: Membership, ring: Ring, members: seq<WorkerId>)
    requires UniqueSlots(ring) && ring == Listed(m, |m.members|) && members == RingOrder(ring)
    ensures CarriesMembers(members, m)
    ensures forall w :: w in members <==> w in ring
  {
    assert m.members[..|m.members|] == m.members;
    forall w ensures w in members <==> w in ring {
      assert w in Elements(members) <==> w in ring;
    }
    forall i, j | 0 <= i < j < |members| && members[i] in m.members && members[j] in m.members
      ensures FirstIndex(m.members, members[i]) < FirstIndex(m.members, members[j])
    {
      assert Before(ring, members[i], members[j]);
    }
  }

  lemma ListedRow(m: Membership, ring: Ring, w: WorkerId)
    requires ring == Listed(m, |m.members|) && w in ring
    ensures !Negative(m, w) && ring[w] == NewRow(m, w, ring[w].ringPosition)
  {
  }

  lemma ListedReady(m: Membership, ring: Ring, members: seq<WorkerId>)
    requires ring == Listed(m, |m.members|) && forall w :: w in members <==> w in ring
    ensures ReadyOf(ring) == m.ready * Elements(members)
  {
    hide Listed;
    forall w ensures w in ReadyOf(ring) <==> w in m.ready * Elements(members) {
      if w in ring { ListedRow(m, ring, w); }
    }
  }

  lemma ListedIps(m: Membership, ring: Ring, members: seq<WorkerId>)
    requires ring == Listed(m, |m.members|) && forall w :: w in members <==> w in ring
    ensures IpsOf(ring) == Nonempty(m.ips, members)
  {
    hide Listed;
    var left, right := IpsOf(ring), Nonempty(m.ips, members);
    forall w
      ensures w in left <==> w in right
      ensures w in left ==> left[w] == right[w]
    {
      if w in ring { ListedRow(m, ring, w); }
    }
  }

  lemma ListedWindows(m: Membership, ring: Ring, members: seq<WorkerId>)
    requires ring == Listed(m, |m.members|) && forall w :: w in members <==> w in ring
    ensures WindowsOf(ring) == WindowsWithin(m, members)
  {
    hide Listed;
    var left, right := WindowsOf(ring), WindowsWithin(m, members);
    forall w
      ensures w in left <==> w in right
      ensures w in left ==> left[w] == right[w]
    {
      if w in ring { ListedRow(m, ring, w); }
    }
  }

  /** The migrated rows load to the membership they came from. */
  lemma MigratedLoads(id: ClusterId, row: ClusterRow, m: Membership)
    ensures var ring := InsertFirst(map[], m, |m.members|);
            UniqueSlots(ring) && Carries(LoadRecord(id, row, ring), m, row)
  {
    PopulateResumes(m, 0);
    ListedSlots(m, |m.members|);
    var ring := Listed(m, |m.members|);
    hide Listed, InsertFirst, UniqueSlots, RingOrder, CarriesMembers, ReadyOf, IpsOf, WindowsOf, Nonempty,
         WindowsWithin;
    ListedMembers(m, ring, RingOrder(ring));
    ListedReady(m, ring, RingOrder(ring));
    ListedIps(m, ring, RingOrder(ring));
    ListedWindows(m, ring, RingOrder(ring));
  }

  // ---- The in-place migration ----

  /** A catalog before the migration: the membership table has just been created. */
  ghost predicate Untouched(s: Catalog) {
    Shaped(s) && s.legacy.Some? && forall c :: c in s.rings ==> s.rings[c] == map[]
  }

  /** Every cluster keeps its members (first occurrences, in order), ready set, addresses and windows. */
  lemma MigrationPreserves(s: Catalog, c: ClusterId)
    requires Untouched(s) && Migrate(s).Some? && c in s.rows
    ensures var after := Migrate(s).value;
            var m := Decode(Backfill(s.rows[c], s.legacy.value[c]));
            && m.Some? && c in after.rows && c in after.rings && UniqueSlots(after.rings[c])
            && Carries(LoadRecord(c, after.rows[c], after.rings[c]), m.value, after.rows[c])
  {
    var cols := s.legacy.value[c];
    BackfillDecodes(s.rows[c], cols);
    var m := Decode(Backfill(s.rows[c], cols)).value;
    hide Decode, Backfill, InsertFirst, Carries, MigratedRow;
    MigratedLoads(c, MigratedRow(s.rows[c], cols), m);
  }

  /** The migration fails, and is rolled back, if and only if some member column is the text null or some other
      JSON that is no list. */
  lemma MigrationFailsExactly(s: Catalog)
    requires Shaped(s)
    ensures Migrate(s).None? <==>
            s.legacy.Some? && exists c :: c in s.legacy.value &&
                                          (s.legacy.value[c].members == Text(JsonNull) ||
                                           s.legacy.value[c].members == Text(Other))
  {
  }

  /** What a column says: its data, or nothing at all if it is NULL, broken or of another shape. */
  function Says<T>(column: Column<T>, nothing: T): T {
    if column.Text? && column.json.Data? then column.json.value else nothing
  }

  /** Column by column: the loaded cluster has the members the column lists (but those with a negative window),
      and about them what the other columns say. */
  lemma MigratedColumns(s: Catalog, c: ClusterId)
    requires Untouched(s) && Migrate(s).Some? && c in s.rows
    ensures c in Migrate(s).value.rows && c in Migrate(s).value.rings && UniqueSlots(Migrate(s).value.rings[c])
    ensures var rec := LoadRecord(c, Migrate(s).value.rows[c], Migrate(s).value.rings[c]);
            var cols := s.legacy.value[c];
            var windows := Says(cols.windows, map[]);
            && (forall w :: w in rec.members <==>
                  w in Says(cols.members, []) && !(w in windows && windows[w] < 0))
            && rec.ready == Says(cols.ready, {}) * Elements(rec.members)
            && (forall w :: w in rec.ips <==>
                  w in rec.members && w in Says(cols.ips, map[]) && Says(cols.ips, map[])[w] != "")
            && (forall w :: w in rec.ips ==> rec.ips[w] == Says(cols.ips, map[])[w])
            && (rec.layerWindows.Some? ==>
                  && (forall w :: w in rec.layerWindows.value <==> w in rec.members && w in windows)
                  && (forall w :: w in rec.layerWindows.value ==> rec.layerWindows.value[w] == windows[w]))
  {
    hide RingOrder, UniqueSlots, ReadyOf, IpsOf, WindowsOf, InsertFirst, Ordered;
    MigrationPreserves(s, c);
    DecodedColumns(s.rows[c], s.legacy.value[c]);
    hide Decode, Backfill, LoadRecord;
    var rec := LoadRecord(c, Migrate(s).value.rows[c], Migrate(s).value.rings[c]);
    assert forall w :: w in rec.members <==> w in Elements(rec.members);
  }

  lemma DecodedColumns(row: ClusterRow, cols: LegacyColumns)
    requires Decode(Backfill(row, cols)).Some?
    ensures var m := Decode(Backfill(row, cols)).value;
            && m.members == Says(cols.members, []) && m.ready == Says(cols.ready, {}) && m.ips == Says(cols.ips, map[])
            && Says(cols.windows, map[]) == if m.windows.Some? then m.windows.value else map[]
  {
  }

  /** A live cluster ends up reported, unless its column holds the text null or no JSON at all (the
      backfill only looks for SQL NULL). */
  lemma LiveEndsReported(row: ClusterRow, cols: LegacyColumns)
    requires Decode(cols).Some? && row.status.Live?
    ensures MigratedRow(row, cols).reported <==>
            row.reported || (cols.windows != Text(JsonNull) && cols.windows != Text(NotJson))
  {
    BackfillDecodes(row, cols);
  }

  /** Any other cluster ends up reported only by what its column says. */
  lemma OthersEndAsReported(row: ClusterRow, cols: LegacyColumns)
    requires Decode(cols).Some? && !row.status.Live?
    ensures MigratedRow(row, cols).reported <==>
            row.reported || (cols.windows.Text? && (cols.windows.json.Data? || cols.windows.json.Other?))
  {
    BackfillDecodes(row, cols);
  }

  const LIVE_ROW := ClusterRow(7, "10.23.1.0/24", Live, 0.0, false)

  const NULL_TEXT := LegacyColumns(Text(Data([2])), Text(Data({2})), Text(Data(map[2 := "10.23.1.1"])), Text(JsonNull))

  /** One such cluster: live, fully ready, and unreported after the migration. */
  lemma LiveLeftUnreported()
    ensures Untouched(Catalog(map[3 := LIVE_ROW], map[3 := map[]], Some(map[3 := NULL_TEXT])))
    ensures var after := Migrate(Catalog(map[3 := LIVE_ROW], map[3 := map[]], Some(map[3 := NULL_TEXT])));
            after.Some? && 3 in after.value.rows && after.value.rows[3] == LIVE_ROW
  {
    BackfillDecodes(LIVE_ROW, NULL_TEXT);
    assert MigratedRow(LIVE_ROW, NULL_TEXT) == LIVE_ROW;
    hide Decode, Backfill, InsertFirst, MigratedRow, MigratedRing;
  }

  /** Reopening a migrated database changes nothing: the columns that trigger the step are gone. */
  lemma MigrationIdempotent(s: Catalog)
    requires Migrate(s).Some?
    ensures Migrate(Migrate(s).value) == Migrate(s)
  {
  }

  /** What an interrupted attempt may have left: some columns backfilled, some flags set, some rows of
      some clusters inserted. */
  ghost predicate Interrupted(s: Catalog, part: Catalog) {
    && Untouched(s) && Shaped(part) && part.legacy.Some? && part.rows.Keys == s.rows.Keys
    && forall c :: c in s.rows ==>
         InterruptedCluster(s.rows[c], s.legacy.value[c], part.rows[c], part.legacy.value[c], part.rings[c])
  }

  ghost predicate InterruptedCluster(row: ClusterRow, cols: LegacyColumns, rowNow: ClusterRow,
                                     colsNow: LegacyColumns, ring: Ring)
  {
    && (rowNow == row || rowNow == MigratedRow(row, cols))
    && (colsNow == cols || colsNow == Backfill(row, cols))
    && match Decode(Backfill(row, cols))
       case None => ring == map[]
       case Some(m) => exists k :: 0 <= k <= |m.members| && ring == InsertFirst(map[], m, k)
  }

  lemma ResumeCluster(row: ClusterRow, cols: LegacyColumns, rowNow: ClusterRow, colsNow: LegacyColumns, ring: Ring)
    requires InterruptedCluster(row, cols, rowNow, colsNow, ring)
    ensures Backfill(rowNow, colsNow) == Backfill(row, cols)
    ensures MigratedRow(rowNow, colsNow) == MigratedRow(row, cols)
    ensures MigratedRing(rowNow, colsNow, ring) == MigratedRing(row, cols, map[])
  {
    BackfillTwice(row, cols, rowNow);
    assert Backfill(rowNow, colsNow) == Backfill(row, cols);
    var decoded := Decode(Backfill(row, cols));
    hide Decode, Backfill, InsertFirst;
    if decoded.Some? {
      var m := decoded.value;
      var k :| 0 <= k <= |m.members| && ring == InsertFirst(map[], m, k);
      PopulateResumes(m, k);
    }
  }

  lemma BackfillTwice(row: ClusterRow, cols: LegacyColumns, rowNow: ClusterRow)
    requires rowNow == row || rowNow == MigratedRow(row, cols)
    ensures Backfill(rowNow, Backfill(row, cols)) == Backfill(row, cols)
    ensures Backfill(rowNow, cols) == Backfill(row, cols)
  {
  }

  /** Running again after an interrupted attempt ends where one clean run does. */
  lemma MigrationResumes(s: Catalog, part: Catalog)
    requires Interrupted(s, part)
    ensures Migrate(part) == Migrate(s)
  {
    hide Decode, Backfill, InsertFirst, MigratedRow, MigratedRing, InterruptedCluster;
    forall c | c in s.rows
      ensures Decode(part.legacy.value[c]).Some? <==> Decode(s.legacy.value[c]).Some?
      ensures MigratedRow(part.rows[c], part.legacy.value[c]) == MigratedRow(s.rows[c], s.legacy.value[c])
      ensures MigratedRing(part.rows[c], part.legacy.value[c], part.rings[c]) ==
              MigratedRing(s.rows[c], s.legacy.value[c], s.rings[c])
    {
      ResumeCluster(s.rows[c], s.legacy.value[c], part.rows[c], part.legacy.value[c], part.rings[c]);
      BackfillDecodes(s.rows[c], s.legacy.value[c]);
      BackfillDecodes(part.rows[c], part.legacy.value[c]);
    }
    var a, b := part.legacy.value, s.legacy.value;
    assert Undecodable(a) <==> Undecodable(b);
    assert MigratedRows(part.rows, a) == MigratedRows(s.rows, b);
    assert MigratedRings(part.rows, a, part.rings) == MigratedRings(s.rows, b, s.rings);
  }

  // ---- The snapshot file ----

  /** A cluster of the snapshot: its row (the flag is not read) and its membership. */
  datatype SnapshotCluster = SnapshotCluster(id: ClusterId, row: ClusterRow, membership: Membership)

  /** The backfill of this path: a live cluster without a distribution gets an empty one. */
  function SnapshotMembership(sc: SnapshotCluster): Membership {
    if sc.row.status.Live? && sc.membership.windows.None? then sc.membership.(windows := Some(map[])) else sc.membership
  }

  function SnapshotRow(sc: SnapshotCluster): ClusterRow {
    sc.row.(reported := SnapshotMembership(sc).windows.Some?)
  }

  /** INSERT OR IGNORE of the cluster, then of each membership row. */
  function AddSnapshot(s: Catalog, sc: SnapshotCluster): Catalog {
    var m := SnapshotMembership(sc);
    var ring := if sc.id in s.rings then s.rings[sc.id] else map[];
    s.(rows := if sc.id in s.rows then s.rows else s.rows[sc.id := SnapshotRow(sc)],
       rings := s.rings[sc.id := InsertFirst(ring, m, |m.members|)])
  }

  function FromSnapshot(clusters: seq<SnapshotCluster>, n: nat): Catalog
    requires n <= |clusters|
  {
    if n == 0 then Catalog(map[], map[], None) else AddSnapshot(FromSnapshot(clusters, n - 1), clusters[n - 1])
  }

  /** The cluster loop of _migrate_from_json on a new database. */
  method MigrateFromJson(clusters: seq<SnapshotCluster>) returns (db: Database)
    ensures fresh(db) && db.View() == FromSnapshot(clusters, |clusters|)
  {
    db := new Database(Catalog(map[], map[], None));
    for n := 0 to |clusters|
      invariant fresh(db) && db.View() == FromSnapshot(clusters, n)
    {
      var sc := clusters[n];
      var m := sc.membership;
      if m.windows.None? && sc.row.status == Live {
        m := m.(windows := Some(map[]));
      }
      var ring := Database.Populate(if sc.id in db.rings then db.rings[sc.id] else map[], m);
      if sc.id !in db.rows {
        db.rows := db.rows[sc.id := sc.row.(reported := m.windows.Some?)];
      }
      db.rings := db.rings[sc.id := ring];
    }
  }

  /** The columns hold the same logical data as the membership; "not reported" may be SQL NULL or the
      text null. */
  ghost predicate Encodes(cols: LegacyColumns, m: Membership) {
    && cols.members == Text(Data(m.members)) && cols.ready == Text(Data(m.ready)) && cols.ips == Text(Data(m.ips))
    && match m.windows
       case Some(windows) => cols.windows == Text(Data(windows))
       case None => cols.windows == SqlNull || cols.windows == Text(JsonNull)
  }

  /** The two paths agree on a cluster exactly when it is not a live one whose missing distribution is
      written as the text null. */
  lemma SamePath(sc: SnapshotCluster, cols: LegacyColumns)
    requires Encodes(cols, sc.membership) && !sc.row.reported
    ensures var m := SnapshotMembership(sc);
            MigratedRing(sc.row, cols, map[]) == InsertFirst(map[], m, |m.members|)
    ensures MigratedRow(sc.row, cols) == SnapshotRow(sc) <==> !(sc.row.status.Live? && cols.windows == Text(JsonNull))
  {
    var m, n := Decode(Backfill(sc.row, cols)).value, SnapshotMembership(sc);
    assert m == n || (m == sc.membership && n == m.(windows := Some(map[])) && m.windows.None?);
    hide InsertFirst;
    if m != n { EmptyWindows(m, |m.members|); }
  }

  lemma {:induction false} EmptyWindows(m: Membership, n: nat)
    requires m.windows.None? && n <= |m.members|
    ensures InsertFirst(map[], m, n) == InsertFirst(map[], m.(windows := Some(map[])), n)
  {
    if n > 0 { EmptyWindows(m, n - 1); }
  }

  lemma {:induction false} SnapshotAt(clusters: seq<SnapshotCluster>, n: nat, i: nat)
    requires i < n <= |clusters| && forall j, k :: 0 <= j < k < |clusters| ==> clusters[j].id != clusters[k].id
    ensures var s := FromSnapshot(clusters, n);
            var m := SnapshotMembership(clusters[i]);
            && clusters[i].id in s.rows && s.rows[clusters[i].id] == SnapshotRow(clusters[i])
            && clusters[i].id in s.rings && s.rings[clusters[i].id] == InsertFirst(map[], m, |m.members|)
  {
    hide InsertFirst, SnapshotMembership, SnapshotRow;
    if i < n - 1 {
      SnapshotAt(clusters, n - 1, i);
    } else {
      SnapshotKeys(clusters, n - 1);
    }
  }

  function Ids(clusters: seq<SnapshotCluster>, n: nat): set<ClusterId>
    requires n <= |clusters|
  {
    set i | 0 <= i < n :: clusters[i].id
  }

  lemma {:induction false} SnapshotKeys(clusters: seq<SnapshotCluster>, n: nat)
    requires n <= |clusters|
    ensures var s := FromSnapshot(clusters, n);
            s.legacy.None? && s.rows.Keys == Ids(clusters, n) && s.rings.Keys == Ids(clusters, n)
  {
    hide InsertFirst, SnapshotMembership, SnapshotRow;
    if n > 0 {
      SnapshotKeys(clusters, n - 1);
      assert Ids(clusters, n) == Ids(clusters, n - 1) + {clusters[n - 1].id};
    }
  }

  /** Old row and snapshot entry hold the same cluster, and its missing distribution, if it is live,
      is SQL NULL. */
  ghost predicate SameCluster(sc: SnapshotCluster, row: ClusterRow, cols: LegacyColumns) {
    && row == sc.row && !row.reported && Encodes(cols, sc.membership)
    && !(row.status.Live? && cols.windows == Text(JsonNull))
  }

  lemma AgreeAt(s: Catalog, clusters: seq<SnapshotCluster>, i: nat)
    requires Untouched(s) && i < |clusters|
    requires forall j, k :: 0 <= j < k < |clusters| ==> clusters[j].id != clusters[k].id
    requires clusters[i].id in s.rows
    requires SameCluster(clusters[i], s.rows[clusters[i].id], s.legacy.value[clusters[i].id])
    ensures var c := clusters[i].id;
            var snapshot := FromSnapshot(clusters, |clusters|);
            && Decode(s.legacy.value[c]).Some?
            && c in snapshot.rows && c in snapshot.rings
            && MigratedRow(s.rows[c], s.legacy.value[c]) == snapshot.rows[c]
            && MigratedRing(s.rows[c], s.legacy.value[c], s.rings[c]) == snapshot.rings[c]
  {
    hide MigratedRow, MigratedRing, FromSnapshot, SnapshotMembership, SnapshotRow, InsertFirst;
    SamePath(clusters[i], s.legacy.value[clusters[i].id]);
    SnapshotAt(clusters, |clusters|, i);
  }

  /** Both paths produce the same tables from the same logical data, whether or not windows are
      negative or names repeated. */
  lemma PathsAgree(s: Catalog, clusters: seq<SnapshotCluster>)
    requires Untouched(s)
    requires forall j, k :: 0 <= j < k < |clusters| ==> clusters[j].id != clusters[k].id
    requires s.rows.Keys == Ids(clusters, |clusters|)
    requires forall i :: 0 <= i < |clusters| && clusters[i].id in s.rows ==>
               SameCluster(clusters[i], s.rows[clusters[i].id], s.legacy.value[clusters[i].id])
    ensures Migrate(s) == Some(FromSnapshot(clusters, |clusters|))
  {
    hide SameCluster, Migrate, MigratedRow, MigratedRing, FromSnapshot, Decode;
    var snapshot := FromSnapshot(clusters, |clusters|);
    SnapshotKeys(clusters, |clusters|);
    var cols := s.legacy.value;
    forall c | c in s.rows
      ensures Decode(cols[c]).Some?
      ensures c in snapshot.rows && c in snapshot.rings
      ensures MigratedRow(s.rows[c], cols[c]) == snapshot.rows[c]
      ensures MigratedRing(s.rows[c], cols[c], s.rings[c]) == snapshot.rings[c]
    {
      assert c in Ids(clusters, |clusters|);
      var i :| 0 <= i < |clusters| && clusters[i].id == c;
      AgreeAt(s, clusters, i);
    }
    MigratesTo(s, snapshot);
  }

  lemma MigratesTo(s: Catalog, after: Catalog)
    requires Shaped(s) && s.legacy.Some? && after.legacy.None?
    requires after.rows.Keys == s.rows.Keys && after.rings.Keys == s.rows.Keys
    requires forall c :: c in s.rows ==>
               && Decode(s.legacy.value[c]).Some?
               && MigratedRow(s.rows[c], s.legacy.value[c]) == after.rows[c]
               && MigratedRing(s.rows[c], s.legacy.value[c], s.rings[c]) == after.rings[c]
    ensures Migrate(s) == Some(after)
  {
    hide Decode, MigratedRow, MigratedRing;
    assert MigratedRows(s.rows, s.legacy.value) == after.rows;
    assert MigratedRings(s.rows, s.legacy.value, s.rings) == after.rings;
  }
}
