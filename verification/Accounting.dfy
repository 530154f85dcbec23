/** Usage credited to workers (store.py: worker_attribution; app.py: _attribution_entry and the
    worker-stats handler): requests joined with the membership rows of their cluster and with the
    worker rows that still exist. */
module Accounting {
  import opened Basics
  import opened Models
  import opened Rings
  import opened Tables
  import opened Ranks

  /** A row of `requests`. */
  datatype Request = Request(
    requestId: nat,
    accountId: AccountId,
    model: Token,
    clusterId: ClusterId,
    promptTokens: int,
    completionTokens: int,
    createdAt: Time)

  /** A row of the attribution query: one request and one owned worker of its cluster. */
  datatype Row = Row(request: Request, worker: WorkerId, layerWindow: Option<nat>, clusterTotal: Option<nat>)

  /** SELECT SUM(layer_window): NULL when no member has a window. */
  function Total(ring: Ring): Option<nat>
    requires UniqueSlots(ring)
  {
    if WindowsOf(ring) == map[] then None else Some(WindowSum(RingOrder(ring), WindowsOf(ring)))
  }

  function RowFor(ring: Ring, r: Request, w: WorkerId): Row
    requires UniqueSlots(ring) && w in ring
  {
    Row(r, w, ring[w].layerWindow, Total(ring))
  }

  /** The WHERE clause; an empty list of identifiers does not filter. */
  predicate Wanted(db: Db, r: Request, w: WorkerId, a: AccountId, begin: Time, end: Time, ids: seq<WorkerId>) {
    && w in db.workers && db.workers[w].accountId == a
    && begin <= r.createdAt < end
    && (ids == [] || w in ids)
  }

  ghost function Join(db: Db, requests: set<Request>, a: AccountId, begin: Time, end: Time,
                      ids: seq<WorkerId>): set<Row>
    requires Constraints(db)
  {
    set r, w | r in requests && r.clusterId in db.rings && w in db.rings[r.clusterId] &&
               Wanted(db, r, w, a, begin, end, ids) :: RowFor(db.rings[r.clusterId], r, w)
  }

  /** worker_attribution without a limit: the joined rows, newest first, ties in any order. */
  ghost predicate Attributes(db: Db, requests: set<Request>, a: AccountId, begin: Time, end: Time,
                             ids: seq<WorkerId>, rows: seq<Row>)
    requires Constraints(db)
  {
    && Enumerates(rows, Join(db, requests, a, begin, end, ids))
    && forall i, j :: 0 <= i < j < |rows| ==> rows[i].request.createdAt >= rows[j].request.createdAt
  }

  // ---- Entries ----

  /** WorkerLogEntry: the row with its share and its share-scaled counts. */
  datatype Entry = Entry(
    requestId: nat,
    worker: WorkerId,
    model: Token,
    clusterId: ClusterId,
    promptTokens: int,
    completionTokens: int,
    share: Option<real>,
    effectivePrompt: Option<real>,
    effectiveCompletion: Option<real>,
    createdAt: Time)

  /** layer_window / cluster_total, unless either is missing or the total is 0. */
  function ShareOf(row: Row): Option<real> {
    if row.layerWindow.Some? && row.clusterTotal.Some? && row.clusterTotal.value != 0
    then Some(row.layerWindow.value as real / row.clusterTotal.value as real)
    else None
  }

  function Scaled(tokens: int, share: Option<real>): Option<real> {
    if share.Some? then Some(tokens as real * share.value) else None
  }

  /** _attribution_entry. */
  function AttributionEntry(row: Row): Entry {
    var r, share := row.request, ShareOf(row);
    Entry(r.requestId, row.worker, r.model, r.clusterId, r.promptTokens, r.completionTokens,
          share, Scaled(r.promptTokens, share), Scaled(r.completionTokens, share), r.createdAt)
  }

  function OrZero(value: Option<real>): real {
    if value.Some? then value.value else 0.0
  }

  // ---- Statistics ----

  datatype Totals = Totals(prompt: real, completion: real, effectivePrompt: real, effectiveCompletion: real)

  const ZERO := Totals(0.0, 0.0, 0.0, 0.0)

  function Plus(a: Totals, b: Totals): Totals {
    Totals(a.prompt + b.prompt, a.completion + b.completion,
           a.effectivePrompt + b.effectivePrompt, a.effectiveCompletion + b.effectiveCompletion)
  }

  /** What one log entry adds; null counts as 0. */
  function Contribution(e: Entry): Totals {
    Totals(e.promptTokens as real, e.completionTokens as real, OrZero(e.effectivePrompt), OrZero(e.effectiveCompletion))
  }

  function Entries(rows: seq<Row>): (entries: seq<Entry>)
    ensures |entries| == |rows|
    ensures forall i :: 0 <= i < |rows| ==> entries[i] == AttributionEntry(rows[i])
  {
    seq(|rows|, i requires 0 <= i < |rows| => AttributionEntry(rows[i]))
  }

  /** The entries of one model, added up. */
  function Fold(entries: seq<Entry>, model: Token): Totals {
    if entries == [] then ZERO
    else
      var last := entries[|entries| - 1];
      var front := Fold(entries[..|entries| - 1], model);
      if last.model == model then Plus(front, Contribution(last)) else front
  }

  predicate Mentions(rows: seq<Row>, model: Token) {
    exists i :: 0 <= i < |rows| && rows[i].request.model == model
  }

  /** The aggregation loop of the worker-stats handler: a model has an entry exactly when some row
      mentions it, and its sums are those of its log entries. */
  method WorkerStats(rows: seq<Row>) returns (perModel: map<Token, Totals>)
    ensures forall m :: m in perModel <==> Mentions(rows, m)
    ensures forall m :: m in perModel ==> perModel[m] == Fold(Entries(rows), m)
  {
    hide Fold, Mentions, Entries, AttributionEntry, Contribution, Plus;
    PlusZero();
    perModel := map[];
    NoRows();
    var i := 0;
    while i < |rows|
      invariant 0 <= i <= |rows|
      invariant forall m :: m in perModel <==> Mentions(rows[..i], m)
      invariant forall m :: m in perModel ==> perModel[m] == Fold(Entries(rows[..i]), m)
    {
      var r := rows[i];
      EntriesSnoc(rows, i);
      MentionsSnoc(rows, i);
      UnmentionedIsZero(rows[..i], r.request.model);
      if r.request.model !in perModel {
        perModel := perModel[r.request.model := ZERO];
      }
      var entry := AddRow(perModel[r.request.model], r);
      perModel := perModel[r.request.model := entry];
      i := i + 1;
    }
    assert rows[..i] == rows;
  }

  /** The body of that loop: a row's counts, and its share-scaled counts where there is a share. */
  method AddRow(before: Totals, r: Row) returns (entry: Totals)
    ensures entry == Plus(before, Contribution(AttributionEntry(r)))
  {
    RowContribution(r);
    hide AttributionEntry, Contribution;
    entry := before.(prompt := before.prompt + r.request.promptTokens as real,
                     completion := before.completion + r.request.completionTokens as real);
    var lw, total := r.layerWindow, r.clusterTotal;
    if lw.Some? && total.Some? && total.value != 0 {
      var share := lw.value as real / total.value as real;
      entry := entry.(effectivePrompt := entry.effectivePrompt + r.request.promptTokens as real * share,
                      effectiveCompletion := entry.effectiveCompletion + r.request.completionTokens as real * share);
    }
  }

  lemma PlusZero()
    ensures forall t :: Plus(ZERO, t) == t
  {
  }

  lemma NoRows()
    ensures forall m :: !Mentions([], m)
  {
  }

  lemma RowContribution(row: Row)
    ensures var r, share := row.request, ShareOf(row);
            Contribution(AttributionEntry(row)) ==
            Totals(r.promptTokens as real, r.completionTokens as real,
                   if share.Some? then r.promptTokens as real * share.value else 0.0,
                   if share.Some? then r.completionTokens as real * share.value else 0.0)
  {
  }

  lemma {:induction false} UnmentionedIsZero(rows: seq<Row>, m: Token)
    ensures !Mentions(rows, m) ==> Fold(Entries(rows), m) == ZERO
  {
    if rows != [] && !Mentions(rows, m) {
      var n := |rows| - 1;
      EntriesSnoc(rows, n);
      MentionsSnoc(rows, n);
      assert rows[..n + 1] == rows;
      UnmentionedIsZero(rows[..n], m);
    }
  }

  lemma EntriesSnoc(rows: seq<Row>, i: nat)
    requires i < |rows|
    ensures forall m :: Fold(Entries(rows[..i + 1]), m) ==
                        if rows[i].request.model == m
                        then Plus(Fold(Entries(rows[..i]), m), Contribution(AttributionEntry(rows[i])))
                        else Fold(Entries(rows[..i]), m)
  {
    assert Entries(rows[..i + 1])[..i] == Entries(rows[..i]);
  }

  lemma MentionsSnoc(rows: seq<Row>, i: nat)
    requires i < |rows|
    ensures forall m :: Mentions(rows[..i + 1], m) <==> Mentions(rows[..i], m) || rows[i].request.model == m
  {
    forall m ensures Mentions(rows[..i + 1], m) <==> Mentions(rows[..i], m) || rows[i].request.model == m {
      MentionsElements(rows[..i + 1], m);
      MentionsElements(rows[..i], m);
      assert rows[..i + 1] == rows[..i] + [rows[i]];
      assert Elements(rows[..i + 1]) == Elements(rows[..i]) + {rows[i]};
    }
  }

  // ---- Sums do not depend on the order of the rows ----

  lemma {:induction false} DistinctBag<T>(s: seq<T>, x: T)
    requires Distinct(s)
    ensures multiset(s)[x] == if x in s then 1 else 0
  {
    if s != [] {
      var n := |s| - 1;
      assert s == s[..n] + [s[n]];
      DistinctBag(s[..n], x);
      assert s[n] !in s[..n];
    }
  }

  lemma SameElementsSameBag<T>(s: seq<T>, t: seq<T>)
    requires Distinct(s) && Distinct(t) && Elements(s) == Elements(t)
    ensures multiset(s) == multiset(t)
  {
    forall x ensures multiset(s)[x] == multiset(t)[x] {
      DistinctBag(s, x);
      DistinctBag(t, x);
      assert x in s <==> x in Elements(s);
      assert x in t <==> x in Elements(t);
    }
  }

  /** The sequence without its i-th element. */
  function Dropped<T>(s: seq<T>, i: nat): (rest: seq<T>)
    requires i < |s|
    ensures multiset(s) == multiset(rest) + multiset{s[i]}
  {
    assert s == s[..i] + [s[i]] + s[i + 1..];
    s[..i] + s[i + 1..]
  }

  lemma PeelBag<T>(s: seq<T>, t: seq<T>) returns (i: nat)
    requires multiset(s) == multiset(t) && s != []
    ensures i < |t| && t[i] == s[|s| - 1]
    ensures multiset(s[..|s| - 1]) == multiset(Dropped(t, i))
  {
    var n := |s| - 1;
    assert s == s[..n] + [s[n]];
    assert s[n] in multiset(t);
    i :| 0 <= i < |t| && t[i] == s[n];
    assert multiset(s[..n]) + multiset{s[n]} == multiset(Dropped(t, i)) + multiset{s[n]};
    assert multiset(s[..n]) == multiset(s) - multiset{s[n]};
  }

  lemma {:induction false} FoldAppend(a: seq<Entry>, b: seq<Entry>, model: Token)
    ensures Fold(a + b, model) == Plus(Fold(a, model), Fold(b, model))
  {
    if b == [] {
      assert a + b == a;
    } else {
      var n := |b| - 1;
      assert (a + b)[..|a + b| - 1] == a + b[..n];
      FoldAppend(a, b[..n], model);
    }
  }

  lemma FoldDropped(s: seq<Entry>, i: nat, model: Token)
    requires i < |s|
    ensures Fold(s, model) == Plus(Fold(Dropped(s, i), model), Fold([s[i]], model))
  {
    hide Fold;
    FoldAppend(s[..i], [s[i]], model);
    FoldAppend(s[..i] + [s[i]], s[i + 1..], model);
    assert s == s[..i] + [s[i]] + s[i + 1..];
    FoldAppend(s[..i], s[i + 1..], model);
  }

  lemma {:induction false} FoldBag(s: seq<Entry>, t: seq<Entry>, model: Token)
    requires multiset(s) == multiset(t)
    ensures Fold(s, model) == Fold(t, model)
  {
    if s == [] {
      assert |t| == |multiset(t)|;
    } else {
      var n := |s| - 1;
      var i := PeelBag(s, t);
      assert s == s[..n] + [s[n]];
      FoldBag(s[..n], Dropped(t, i), model);
      FoldDropped(t, i, model);
      FoldAppend(s[..n], [s[n]], model);
    }
  }

  lemma {:induction false} EntriesBag(s: seq<Row>, t: seq<Row>, e: Entry)
    requires multiset(s) == multiset(t)
    ensures multiset(Entries(s))[e] == multiset(Entries(t))[e]
  {
    if s == [] {
      assert |t| == |multiset(t)|;
    } else {
      var n := |s| - 1;
      var i := PeelBag(s, t);
      assert s == s[..n] + [s[n]];
      EntriesBag(s[..n], Dropped(t, i), e);
      assert Entries(s) == Entries(s[..n]) + [AttributionEntry(s[n])];
      assert Dropped(Entries(t), i) == Entries(Dropped(t, i));
    }
  }

  // ---- Adjacent windows ----

  lemma JoinSplits(db: Db, requests: set<Request>, a: AccountId, begin: Time, mid: Time, end: Time, ids: seq<WorkerId>)
    requires Constraints(db) && begin <= mid <= end
    ensures Join(db, requests, a, begin, end, ids) ==
            Join(db, requests, a, begin, mid, ids) + Join(db, requests, a, mid, end, ids)
    ensures Join(db, requests, a, begin, mid, ids) !! Join(db, requests, a, mid, end, ids)
  {
    hide Constraints, RowFor;
    forall r, w
      ensures Wanted(db, r, w, a, begin, end, ids) <==>
              Wanted(db, r, w, a, begin, mid, ids) || Wanted(db, r, w, a, mid, end, ids)
    {
    }
    forall row | row in Join(db, requests, a, begin, mid, ids) ensures row.request.createdAt < mid {
      JoinInRange(db, requests, a, begin, mid, ids, row);
    }
    forall row | row in Join(db, requests, a, mid, end, ids) ensures mid <= row.request.createdAt {
      JoinInRange(db, requests, a, mid, end, ids, row);
    }
    hide Wanted;
  }

  lemma JoinInRange(db: Db, requests: set<Request>, a: AccountId, begin: Time, end: Time, ids: seq<WorkerId>, row: Row)
    requires Constraints(db) && row in Join(db, requests, a, begin, end, ids)
    ensures begin <= row.request.createdAt < end
  {
  }

  /** Worker statistics are additive over adjacent half-open windows, whatever order the engine
      returned tied rows in. */
  lemma StatsAdditive(db: Db, requests: set<Request>, a: AccountId, begin: Time, mid: Time, end: Time,
                      ids: seq<WorkerId>, early: seq<Row>, late: seq<Row>, all: seq<Row>, model: Token)
    requires Constraints(db) && begin <= mid <= end
    requires Attributes(db, requests, a, begin, mid, ids, early)
    requires Attributes(db, requests, a, mid, end, ids, late)
    requires Attributes(db, requests, a, begin, end, ids, all)
    ensures Fold(Entries(all), model) == Plus(Fold(Entries(early), model), Fold(Entries(late), model))
    ensures Mentions(all, model) <==> Mentions(early, model) || Mentions(late, model)
  {
    JoinSplits(db, requests, a, begin, mid, end, ids);
    hide Join, Constraints;
    var joined := early + late;
    assert Elements(joined) == Elements(early) + Elements(late);
    assert Distinct(joined) by {
      forall i, j | 0 <= i < j < |joined| ensures joined[i] != joined[j] {
        if i < |early| <= j {
          assert joined[i] in Elements(early) && joined[j] in Elements(late);
        }
      }
    }
    SameElementsSameBag(all, joined);
    forall e ensures multiset(Entries(all))[e] == multiset(Entries(joined))[e] {
      EntriesBag(all, joined, e);
    }
    FoldBag(Entries(all), Entries(joined), model);
    assert Entries(joined) == Entries(early) + Entries(late);
    FoldAppend(Entries(early), Entries(late), model);
    MentionsElements(all, model);
    MentionsElements(early, model);
    MentionsElements(late, model);
  }

  lemma MentionsElements(rows: seq<Row>, model: Token)
    ensures Mentions(rows, model) <==> exists row :: row in Elements(rows) && row.request.model == model
  {
    if Mentions(rows, model) {
      var i :| 0 <= i < |rows| && rows[i].request.model == model;
      assert rows[i] in Elements(rows);
    }
    if row :| row in Elements(rows) && row.request.model == model {
      var i :| 0 <= i < |rows| && rows[i] == row;
    }
  }

  // ---- Conservation across accounts ----

  datatype Kind = Prompt | Completion

  function Tokens(r: Request, kind: Kind): int {
    if kind.Prompt? then r.promptTokens else r.completionTokens
  }

  function Effective(row: Row, kind: Kind): real {
    var e := AttributionEntry(row);
    OrZero(if kind.Prompt? then e.effectivePrompt else e.effectiveCompletion)
  }

  /** The rows of one request. */
  function OfRequest(rows: seq<Row>, r: Request): seq<Row> {
    if rows == [] then []
    else
      var last := rows[|rows| - 1];
      OfRequest(rows[..|rows| - 1], r) + if last.request == r then [last] else []
  }

  function ShareSum(rows: seq<Row>): real {
    if rows == [] then 0.0 else ShareSum(rows[..|rows| - 1]) + OrZero(ShareOf(rows[|rows| - 1]))
  }

  function EffectiveSum(rows: seq<Row>, kind: Kind): real {
    if rows == [] then 0.0 else EffectiveSum(rows[..|rows| - 1], kind) + Effective(rows[|rows| - 1], kind)
  }

  /** The shares of a request over the answers that several accounts get. */
  function ShareAcross(results: seq<seq<Row>>, r: Request): real {
    if results == [] then 0.0
    else ShareAcross(results[..|results| - 1], r) + ShareSum(OfRequest(results[|results| - 1], r))
  }

  /** And its effective tokens. */
  function EffectiveAcross(results: seq<seq<Row>>, r: Request, kind: Kind): real {
    if results == [] then 0.0
    else EffectiveAcross(results[..|results| - 1], r, kind) + EffectiveSum(OfRequest(results[|results| - 1], r), kind)
  }

  /** Every member with a positive window still has its worker row. */
  ghost predicate AllPresent(db: Db, ring: Ring) {
    forall w :: w in ring && ring[w].layerWindow.Some? && ring[w].layerWindow.value > 0 ==> w in db.workers
  }

  /** The windows of the members that still have a worker row. */
  function Present(db: Db, members: seq<WorkerId>, windows: map<WorkerId, nat>): nat {
    if members == [] then 0
    else
      var w := members[|members| - 1];
      Present(db, members[..|members| - 1], windows) + if w in windows && w in db.workers then windows[w] else 0
  }

  /** One account's rows of a request, in ring order. */
  function Listed(db: Db, ring: Ring, r: Request, members: seq<WorkerId>, a: AccountId): seq<Row>
    requires UniqueSlots(ring) && forall w :: w in members ==> w in ring
  {
    if members == [] then []
    else
      var w := members[|members| - 1];
      Listed(db, ring, r, members[..|members| - 1], a) +
      if w in db.workers && db.workers[w].accountId == a then [RowFor(ring, r, w)] else []
  }

  lemma {:induction false} OfRequestElements(rows: seq<Row>, r: Request)
    ensures forall row :: row in OfRequest(rows, r) <==> row in rows && row.request == r
    ensures Distinct(rows) ==> Distinct(OfRequest(rows, r))
  {
    if rows != [] {
      var n := |rows| - 1;
      assert rows == rows[..n] + [rows[n]];
      OfRequestElements(rows[..n], r);
      if Distinct(rows) {
        assert rows[n] !in rows[..n];
      }
    }
  }

  lemma {:induction false} ListedElements(db: Db, ring: Ring, r: Request, members: seq<WorkerId>, a: AccountId)
    requires UniqueSlots(ring) && forall w :: w in members ==> w in ring
    ensures forall row :: row in Listed(db, ring, r, members, a) <==>
              exists w :: w in members && w in db.workers && db.workers[w].accountId == a && row == RowFor(ring, r, w)
    ensures forall row :: row in Listed(db, ring, r, members, a) ==> row.worker in members
    ensures Distinct(members) ==> Distinct(Listed(db, ring, r, members, a))
  {
    hide UniqueSlots, Total;
    if members != [] {
      var n := |members| - 1;
      assert members == members[..n] + [members[n]];
      ListedElements(db, ring, r, members[..n], a);
      if Distinct(members) {
        assert members[n] !in members[..n];
      }
    }
  }

  /** The answer's rows of a request are the ring-order ones, up to order. */
  lemma AnswerListed(db: Db, requests: set<Request>, a: AccountId, begin: Time, end: Time, rows: seq<Row>, r: Request)
    requires Constraints(db) && Attributes(db, requests, a, begin, end, [], rows)
    requires r in requests && begin <= r.createdAt < end && r.clusterId in db.rings
    ensures var ring := db.rings[r.clusterId];
            && (forall w :: w in RingOrder(ring) ==> w in ring)
            && multiset(OfRequest(rows, r)) == multiset(Listed(db, ring, r, RingOrder(ring), a))
  {
    var ring := db.rings[r.clusterId];
    var members := RingOrder(ring);
    OrderedDistinct(ring, members);
    assert forall w :: w in members <==> w in Elements(members);
    OfRequestElements(rows, r);
    ListedElements(db, ring, r, members, a);
    forall row ensures row in OfRequest(rows, r) <==> row in Listed(db, ring, r, members, a) {
      assert row in rows <==> row in Elements(rows);
      JoinOfRequest(db, requests, a, begin, end, r, row);
    }
    hide Constraints, Join, Listed, OfRequest, RingOrder, Attributes;
    SameElementsSameBag(OfRequest(rows, r), Listed(db, ring, r, members, a));
  }

  lemma JoinOfRequest(db: Db, requests: set<Request>, a: AccountId, begin: Time, end: Time, r: Request, row: Row)
    requires Constraints(db) && r in requests && begin <= r.createdAt < end && r.clusterId in db.rings
    ensures row in Join(db, requests, a, begin, end, []) && row.request == r <==>
            exists w :: w in RingOrder(db.rings[r.clusterId]) && w in db.workers && db.workers[w].accountId == a &&
                        w in db.rings[r.clusterId] && row == RowFor(db.rings[r.clusterId], r, w)
  {
    var ring := db.rings[r.clusterId];
    assert forall w :: w in RingOrder(ring) <==> w in Elements(RingOrder(ring));
    hide RingOrder, Total;
  }

  lemma {:induction false} ShareSumAppend(a: seq<Row>, b: seq<Row>)
    ensures ShareSum(a + b) == ShareSum(a) + ShareSum(b)
  {
    hide ShareOf;
    if b == [] {
      assert a + b == a;
    } else {
      var n := |b| - 1;
      assert (a + b)[..|a + b| - 1] == a + b[..n];
      ShareSumAppend(a, b[..n]);
    }
  }

  lemma ShareSumDropped(s: seq<Row>, i: nat)
    requires i < |s|
    ensures ShareSum(s) == ShareSum(Dropped(s, i)) + ShareSum([s[i]])
  {
    hide ShareSum;
    ShareSumAppend(s[..i], [s[i]]);
    ShareSumAppend(s[..i] + [s[i]], s[i + 1..]);
    assert s == s[..i] + [s[i]] + s[i + 1..];
    ShareSumAppend(s[..i], s[i + 1..]);
  }

  lemma {:induction false} ShareSumBag(s: seq<Row>, t: seq<Row>)
    requires multiset(s) == multiset(t)
    ensures ShareSum(s) == ShareSum(t)
  {
    if s == [] {
      assert |t| == |multiset(t)|;
    } else {
      var n := |s| - 1;
      var i := PeelBag(s, t);
      assert s == s[..n] + [s[n]];
      ShareSumBag(s[..n], Dropped(t, i));
      ShareSumDropped(t, i);
      ShareSumAppend(s[..n], [s[n]]);
    }
  }

  function ListedAcross(db: Db, ring: Ring, r: Request, members: seq<WorkerId>, accounts: seq<AccountId>): real
    requires UniqueSlots(ring) && forall w :: w in members ==> w in ring
  {
    if accounts == [] then 0.0
    else
      ListedAcross(db, ring, r, members, accounts[..|accounts| - 1]) +
      ShareSum(Listed(db, ring, r, members, accounts[|accounts| - 1]))
  }

  /** The answers of the accounts, one each. */
  ghost predicate Answers(db: Db, requests: set<Request>, accounts: seq<AccountId>, begin: Time, end: Time,
                          results: seq<seq<Row>>)
    requires Constraints(db)
  {
    && |results| == |accounts|
    && forall i :: 0 <= i < |accounts| ==> Attributes(db, requests, accounts[i], begin, end, [], results[i])
  }

  lemma {:induction false} AnswersListed(db: Db, requests: set<Request>, accounts: seq<AccountId>, begin: Time,
                                         end: Time, results: seq<seq<Row>>, r: Request)
    requires Constraints(db) && Answers(db, requests, accounts, begin, end, results)
    requires r in requests && begin <= r.createdAt < end && r.clusterId in db.rings
    ensures var ring := db.rings[r.clusterId];
            && (forall w :: w in RingOrder(ring) ==> w in ring)
            && ShareAcross(results, r) == ListedAcross(db, ring, r, RingOrder(ring), accounts)
    decreases |results|
  {
    var ring := db.rings[r.clusterId];
    assert forall w :: w in RingOrder(ring) ==> w in Elements(RingOrder(ring));
    hide Attributes, Constraints, RingOrder, Listed, OfRequest, ShareSum;
    if results != [] {
      var n := |results| - 1;
      AnswersListed(db, requests, accounts[..n], begin, end, results[..n], r);
      AnswerListed(db, requests, accounts[n], begin, end, results[n], r);
      ShareSumBag(OfRequest(results[n], r), Listed(db, ring, r, RingOrder(ring), accounts[n]));
    }
  }

  /** One member more: its share shows up in the answer of exactly one account. */
  lemma {:induction false} ListedMember(db: Db, ring: Ring, r: Request, members: seq<WorkerId>,
                                        accounts: seq<AccountId>)
    requires UniqueSlots(ring) && (forall w :: w in members ==> w in ring) && members != [] && Distinct(accounts)
    ensures var n := |members| - 1;
            ListedAcross(db, ring, r, members, accounts) ==
            ListedAcross(db, ring, r, members[..n], accounts) +
            if members[n] in db.workers && db.workers[members[n]].accountId in accounts
            then OrZero(ShareOf(RowFor(ring, r, members[n]))) else 0.0
    decreases |accounts|
  {
    hide UniqueSlots, RowFor, ShareOf, Listed;
    if accounts != [] {
      var k := |accounts| - 1;
      assert accounts == accounts[..k] + [accounts[k]];
      assert accounts[k] !in accounts[..k];
      ListedMember(db, ring, r, members, accounts[..k]);
      ListedShare(db, ring, r, members, accounts[k]);
    }
  }

  lemma ListedShare(db: Db, ring: Ring, r: Request, members: seq<WorkerId>, a: AccountId)
    requires UniqueSlots(ring) && (forall w :: w in members ==> w in ring) && members != []
    ensures var n := |members| - 1;
            ShareSum(Listed(db, ring, r, members, a)) ==
            ShareSum(Listed(db, ring, r, members[..n], a)) +
            if members[n] in db.workers && db.workers[members[n]].accountId == a
            then OrZero(ShareOf(RowFor(ring, r, members[n]))) else 0.0
  {
    hide UniqueSlots, RowFor, ShareOf, ShareSum;
    var n := |members| - 1;
    var front := Listed(db, ring, r, members[..n], a);
    ShareSumAppend(front, [RowFor(ring, r, members[n])]);
    ShareSumOne(RowFor(ring, r, members[n]));
    assert front + [] == front;
  }

  lemma ShareSumOne(row: Row)
    ensures ShareSum([row]) == OrZero(ShareOf(row))
  {
    assert [row][..0] == [];
  }

  lemma {:induction false} NoMembers(db: Db, ring: Ring, r: Request, accounts: seq<AccountId>)
    requires UniqueSlots(ring)
    ensures ListedAcross(db, ring, r, [], accounts) == 0.0
  {
    if accounts != [] {
      NoMembers(db, ring, r, accounts[..|accounts| - 1]);
    }
  }

  lemma ShareOfMember(ring: Ring, r: Request, w: WorkerId, total: nat)
    requires UniqueSlots(ring) && w in ring && Total(ring) == Some(total) && total > 0
    ensures OrZero(ShareOf(RowFor(ring, r, w))) * total as real ==
            (if w in WindowsOf(ring) then WindowsOf(ring)[w] else 0) as real
  {
    hide Total;
  }

  function Times(share: real, total: nat): real {
    share * total as real
  }

  /** Scaled by the total, the shares of all accounts are the windows of the present members. */
  lemma {:induction false} SharesArePresent(db: Db, ring: Ring, r: Request, members: seq<WorkerId>,
                                            accounts: seq<AccountId>, total: nat)
    requires UniqueSlots(ring) && (forall w :: w in members ==> w in ring) && Distinct(accounts)
    requires forall w :: w in db.workers ==> db.workers[w].accountId in accounts
    requires Total(ring) == Some(total) && total > 0
    ensures Times(ListedAcross(db, ring, r, members, accounts), total) == Present(db, members, WindowsOf(ring)) as real
    decreases |members|
  {
    hide UniqueSlots, Total, ShareOf, WindowsOf, ListedAcross;
    if members == [] {
      NoMembers(db, ring, r, accounts);
    } else {
      var n := |members| - 1;
      var w := members[n];
      SharesArePresent(db, ring, r, members[..n], accounts, total);
      ListedMember(db, ring, r, members, accounts);
      ShareOfMember(ring, r, w, total);
      var before := ListedAcross(db, ring, r, members[..n], accounts);
      var share := OrZero(ShareOf(RowFor(ring, r, w)));
      assert (before + share) * total as real == before * total as real + share * total as real;
    }
  }

  /** Members without a worker row take their windows away from the total. */
  lemma {:induction false} PresentBound(db: Db, ring: Ring, members: seq<WorkerId>)
    requires forall w :: w in members ==> w in ring
    ensures Present(db, members, WindowsOf(ring)) <= WindowSum(members, WindowsOf(ring))
    ensures Present(db, members, WindowsOf(ring)) == WindowSum(members, WindowsOf(ring)) <==>
            forall w :: w in members && ring[w].layerWindow.Some? && ring[w].layerWindow.value > 0 ==> w in db.workers
  {
    if members != [] {
      var n := |members| - 1;
      assert members == members[..n] + [members[n]];
      PresentBound(db, ring, members[..n]);
    }
  }

  lemma Distributes(t: real, a: real, b: real)
    ensures t * (a + b) == t * a + t * b
  {
  }

  lemma {:induction false} EffectiveIsScaled(rows: seq<Row>, r: Request, kind: Kind)
    requires forall row :: row in rows ==> row.request == r
    ensures EffectiveSum(rows, kind) == Tokens(r, kind) as real * ShareSum(rows)
  {
    hide ShareOf, Effective, Tokens;
    if rows == [] {
      TimesZero(Tokens(r, kind) as real);
    } else {
      var n := |rows| - 1;
      EffectiveIsScaled(rows[..n], r, kind);
      assert rows[n].request == r;
      EffectiveOne(rows[n], kind);
      Distributes(Tokens(r, kind) as real, ShareSum(rows[..n]), OrZero(ShareOf(rows[n])));
    }
  }

  lemma TimesZero(t: real)
    ensures t * 0.0 == 0.0
  {
  }

  lemma EffectiveOne(row: Row, kind: Kind)
    ensures Effective(row, kind) == Tokens(row.request, kind) as real * OrZero(ShareOf(row))
  {
    hide ShareOf;
  }

  lemma {:induction false} EffectiveAcrossIsScaled(results: seq<seq<Row>>, r: Request, kind: Kind)
    ensures EffectiveAcross(results, r, kind) == Tokens(r, kind) as real * ShareAcross(results, r)
  {
    hide ShareSum, EffectiveSum, Tokens, OfRequest;
    if results != [] {
      var n := |results| - 1;
      EffectiveAcrossIsScaled(results[..n], r, kind);
      OfRequestElements(results[n], r);
      EffectiveIsScaled(OfRequest(results[n], r), r, kind);
      var t, front, last := Tokens(r, kind) as real, ShareAcross(results[..n], r), ShareSum(OfRequest(results[n], r));
      Distributes(t, front, last);
    }
  }

  /** The shares in the answers, scaled by the total. */
  lemma AnswersPresent(db: Db, requests: set<Request>, accounts: seq<AccountId>, begin: Time, end: Time,
                       results: seq<seq<Row>>, r: Request, total: nat)
    requires Constraints(db) && Answers(db, requests, accounts, begin, end, results)
    requires Distinct(accounts) && forall w :: w in db.workers ==> db.workers[w].accountId in accounts
    requires r in requests && begin <= r.createdAt < end && r.clusterId in db.rings
    requires Total(db.rings[r.clusterId]) == Some(total) && total > 0
    ensures var ring := db.rings[r.clusterId];
            Times(ShareAcross(results, r), total) == Present(db, RingOrder(ring), WindowsOf(ring)) as real
  {
    var ring := db.rings[r.clusterId];
    assert UniqueSlots(ring);
    hide Constraints, Answers, RingOrder, ListedAcross, ShareAcross, Total, WindowsOf, UniqueSlots, Present, Times;
    AnswersListed(db, requests, accounts, begin, end, results, r);
    assert ShareAcross(results, r) == ListedAcross(db, ring, r, RingOrder(ring), accounts);
    SharesArePresent(db, ring, r, RingOrder(ring), accounts, total);
  }

  lemma PresentOfRing(db: Db, ring: Ring)
    requires UniqueSlots(ring) && Total(ring).Some?
    ensures Present(db, RingOrder(ring), WindowsOf(ring)) <= Total(ring).value
    ensures Present(db, RingOrder(ring), WindowsOf(ring)) == Total(ring).value <==> AllPresent(db, ring)
  {
    var members := RingOrder(ring);
    assert forall w :: w in ring <==> w in Elements(members);
    TotalIsSum(ring);
    hide RingOrder, WindowsOf, UniqueSlots, WindowSum, Present, Total;
    PresentBound(db, ring, members);
  }

  /** Conservation. For a request whose cluster has a positive layer total, the shares in the
      answers of all accounts add up to at most 1, and to 1 exactly when every member with a
      positive window still has its worker row. */
  lemma SharesConserved(db: Db, requests: set<Request>, accounts: seq<AccountId>, begin: Time, end: Time,
                        results: seq<seq<Row>>, r: Request)
    requires Constraints(db) && Answers(db, requests, accounts, begin, end, results)
    requires Distinct(accounts) && forall w :: w in db.workers ==> db.workers[w].accountId in accounts
    requires r in requests && begin <= r.createdAt < end && r.clusterId in db.rings
    requires Total(db.rings[r.clusterId]).Some? && Total(db.rings[r.clusterId]).value > 0
    ensures 0.0 <= ShareAcross(results, r) <= 1.0
    ensures ShareAcross(results, r) == 1.0 <==> AllPresent(db, db.rings[r.clusterId])
  {
    var ring := db.rings[r.clusterId];
    assert UniqueSlots(ring);
    PresentOfRing(db, ring);
    hide Constraints, UniqueSlots, Answers, RingOrder, ShareAcross, Total, WindowsOf, Present, AllPresent, Times;
    AnswersPresent(db, requests, accounts, begin, end, results, r, Total(ring).value);
    Quotient(ShareAcross(results, r), Total(ring).value, Present(db, RingOrder(ring), WindowsOf(ring)));
  }

  lemma TotalIsSum(ring: Ring)
    requires UniqueSlots(ring) && Total(ring).Some?
    ensures Total(ring).value == WindowSum(RingOrder(ring), WindowsOf(ring))
  {
  }

  lemma Quotient(share: real, total: nat, present: nat)
    requires total > 0 && present <= total && Times(share, total) == present as real
    ensures 0.0 <= share <= 1.0
    ensures share == 1.0 <==> present == total
  {
    var t := total as real;
    if share > 1.0 {
      PositiveProduct(share - 1.0, t);
    } else if share < 0.0 {
      PositiveProduct(-share, t);
    } else if present == total && share < 1.0 {
      PositiveProduct(1.0 - share, t);
    }
  }

  lemma PositiveProduct(x: real, y: real)
    requires x > 0.0 && y > 0.0
    ensures x * y > 0.0
  {
  }

  /** So the effective tokens of all accounts never exceed the true ones, and for a request with
      positive tokens they reach them exactly when no contributing worker row was deleted. */
  lemma TokensConserved(db: Db, requests: set<Request>, accounts: seq<AccountId>, begin: Time, end: Time,
                        results: seq<seq<Row>>, r: Request, kind: Kind)
    requires Constraints(db) && Answers(db, requests, accounts, begin, end, results)
    requires Distinct(accounts) && forall w :: w in db.workers ==> db.workers[w].accountId in accounts
    requires r in requests && begin <= r.createdAt < end && r.clusterId in db.rings
    requires Total(db.rings[r.clusterId]).Some? && Total(db.rings[r.clusterId]).value > 0
    requires Tokens(r, kind) >= 0
    ensures EffectiveAcross(results, r, kind) <= Tokens(r, kind) as real
    ensures EffectiveAcross(results, r, kind) == Tokens(r, kind) as real <==>
            Tokens(r, kind) == 0 || AllPresent(db, db.rings[r.clusterId])
  {
    hide Answers, Constraints, ShareAcross, EffectiveAcross, Total, AllPresent;
    SharesConserved(db, requests, accounts, begin, end, results, r);
    EffectiveAcrossIsScaled(results, r, kind);
    Product(Tokens(r, kind) as real, ShareAcross(results, r));
  }

  lemma Product(tokens: real, share: real)
    requires tokens >= 0.0 && 0.0 <= share <= 1.0
    ensures tokens * share <= tokens
    ensures tokens * share == tokens <==> tokens == 0.0 || share == 1.0
  {
    assert tokens - tokens * share == tokens * (1.0 - share);
  }

  // ---- What a deletion takes away ----

  lemma {:induction false} PresentDropped(db: Db, members: seq<WorkerId>, windows: map<WorkerId, nat>, w: WorkerId)
    requires Distinct(members)
    ensures Present(db, members, windows) == Present(DropWorker(db, w), members, windows) +
            if w in members && w in windows && w in db.workers then windows[w] else 0
  {
    if members != [] {
      var n := |members| - 1;
      assert members == members[..n] + [members[n]];
      assert members[n] !in members[..n];
      PresentDropped(db, members[..n], windows, w);
    }
  }

  /** The share that w has of a request in the answer of its account; none without a worker row. */
  function OwnShare(db: Db, ring: Ring, w: WorkerId, total: nat): real
    requires total > 0
  {
    if w in db.workers && w in ring && ring[w].layerWindow.Some?
    then ring[w].layerWindow.value as real / total as real
    else 0.0
  }

  lemma RingMembers(ring: Ring)
    requires UniqueSlots(ring)
    ensures Distinct(RingOrder(ring)) && forall w :: w in RingOrder(ring) <==> w in ring
  {
    hide RingOrder, Ordered, UniqueSlots;
    OrderedDistinct(ring, RingOrder(ring));
    OrderedElements(ring, RingOrder(ring));
    assert forall w :: w in RingOrder(ring) <==> w in Elements(RingOrder(ring));
  }

  lemma OwnWindow(db: Db, ring: Ring, w: WorkerId, total: nat)
    requires total > 0
    ensures w in WindowsOf(ring) ==> w in ring
    ensures Times(OwnShare(db, ring, w, total), total) ==
            (if w in WindowsOf(ring) && w in db.workers then WindowsOf(ring)[w] else 0) as real
  {
  }

  lemma PresentLoss(db: Db, ring: Ring, w: WorkerId, total: nat)
    requires UniqueSlots(ring) && total > 0
    ensures var members, windows := RingOrder(ring), WindowsOf(ring);
            Present(db, members, windows) as real ==
            Present(DropWorker(db, w), members, windows) as real + Times(OwnShare(db, ring, w, total), total)
  {
    hide RingOrder, Ordered, UniqueSlots, DropWorker, Present, WindowsOf, OwnShare, Times;
    RingMembers(ring);
    OwnWindow(db, ring, w, total);
    PresentDropped(db, RingOrder(ring), WindowsOf(ring), w);
  }

  lemma DropRows(db: Db, w: WorkerId)
    ensures DropWorker(db, w).rings == db.rings
    ensures var after := DropWorker(db, w);
            forall v :: v in after.workers ==> v in db.workers && after.workers[v] == db.workers[v]
  {
  }

  lemma RingSlots(db: Db, c: ClusterId)
    requires Constraints(db) && c in db.rings
    ensures UniqueSlots(db.rings[c])
  {
  }

  /** Deleting a worker takes exactly its own share out of the answers about every past request, and
      nobody else's share makes up for it. */
  lemma DeletionTakesShare(db: Db, requests: set<Request>, accounts: seq<AccountId>, begin: Time, end: Time,
                           results: seq<seq<Row>>, later: seq<seq<Row>>, r: Request, w: WorkerId)
    requires Constraints(db) && Constraints(DropWorker(db, w))
    requires Answers(db, requests, accounts, begin, end, results)
    requires Answers(DropWorker(db, w), requests, accounts, begin, end, later)
    requires Distinct(accounts) && forall v :: v in db.workers ==> db.workers[v].accountId in accounts
    requires r in requests && begin <= r.createdAt < end && r.clusterId in db.rings
    requires Total(db.rings[r.clusterId]).Some? && Total(db.rings[r.clusterId]).value > 0
    ensures var ring := db.rings[r.clusterId];
            ShareAcross(later, r) == ShareAcross(results, r) - OwnShare(db, ring, w, Total(ring).value)
  {
    hide Constraints, UniqueSlots, Answers, RingOrder, ShareAcross, Total, WindowsOf, Present, OwnShare, Times,
         DropWorker;
    var ring, after := db.rings[r.clusterId], DropWorker(db, w);
    RingSlots(db, r.clusterId);
    var total := Total(ring).value;
    DropRows(db, w);
    AnswersPresent(db, requests, accounts, begin, end, results, r, total);
    AnswersPresent(after, requests, accounts, begin, end, later, r, total);
    PresentLoss(db, ring, w, total);
    TimesLess(ShareAcross(results, r), ShareAcross(later, r), total);
    SameProduct(ShareAcross(results, r) - ShareAcross(later, r), OwnShare(db, ring, w, total), total);
  }

  lemma TimesLess(x: real, y: real, total: nat)
    ensures Times(x - y, total) == Times(x, total) - Times(y, total)
  {
    var t := total as real;
    assert (x - y) * t == x * t - y * t;
  }

  lemma SameProduct(x: real, y: real, total: nat)
    requires total > 0 && Times(x, total) == Times(y, total)
    ensures x == y
  {
    if x > y {
      TimesLess(x, y, total);
      PositiveProduct(x - y, total as real);
    } else if y > x {
      TimesLess(y, x, total);
      PositiveProduct(y - x, total as real);
    }
  }

  // ---- A state in which the shares do not sum to 1 ----

  const MEMBER := Worker(1, 0, 7, NO_HASH, 1, 11, 12, Waitlisted, true, 0.0, 0.0, None, None, None, 0.0)
  const LAYERED: Ring := map[1 := MemberRow(0, None, true, Some(3)), 2 := MemberRow(1, None, true, Some(1))]

  /** A terminated cluster of two workers with three layers and one. */
  const BEFORE := Db(map[1 := MEMBER, 2 := MEMBER.(workerId := 2, wgPubkey := 13)], [1, 2],
                     map[3 := ClusterRow(7, "10.23.1", Terminated, 0.0, true)], map[3 := LAYERED], map[], 4)

  const CALL := Request(5, 0, 7, 3, 10, 20, 0.0)

  lemma PairTotal()
    ensures UniqueSlots(LAYERED) && Total(LAYERED) == Some(4)
  {
    hide RingOrder, WindowsOf, UniqueSlots, WindowSum;
    PairOrder();
    PairWindows();
    PairSum();
    assert 1 in WindowsOf(LAYERED);
  }

  lemma PairSum()
    ensures WindowSum([1, 2], map[1 := 3, 2 := 1]) == 4
  {
    assert [1, 2][..1] == [1] && [1][..0] == [];
    assert WindowSum([1], map[1 := 3, 2 := 1]) == 3;
  }

  lemma PairOrder()
    ensures UniqueSlots(LAYERED) && RingOrder(LAYERED) == [1, 2]
  {
    assert Elements([1, 2]) == LAYERED.Keys;
    assert Before(LAYERED, 1, 2);
    hide RingOrder;
    RingOrderUnique(LAYERED, [1, 2]);
  }

  lemma PairWindows()
    ensures WindowsOf(LAYERED) == map[1 := 3, 2 := 1]
  {
  }

  const AFTER := Db(map[1 := MEMBER], [1], map[3 := ClusterRow(7, "10.23.1", Terminated, 0.0, true)], map[3 := LAYERED],
                    map[], 4)

  lemma PairDeleted()
    requires UniqueSlots(LAYERED)
    ensures Constraints(BEFORE) && Constraints(AFTER) && DropWorker(BEFORE, 2) == AFTER
  {
    hide UniqueSlots, Constraints, DropWorker;
    PairConstraints();
    DropWorkerConstraints(BEFORE, 2);
    PairDropped();
  }

  lemma PairDropped()
    ensures DropWorker(BEFORE, 2) == AFTER
  {
    assert Without([1, 2], 2) == [1];
    assert Unbound(map[], 2) == map[];
  }

  lemma PairConstraints()
    requires UniqueSlots(LAYERED)
    ensures Constraints(BEFORE)
  {
    hide UniqueSlots;
    assert Elements([1, 2]) == {1, 2};
  }

  lemma PairAnswer()
    requires Constraints(AFTER) && UniqueSlots(LAYERED) && Total(LAYERED) == Some(4)
    ensures Join(AFTER, {CALL}, 0, 0.0, 1.0, []) == {Row(CALL, 1, Some(3), Some(4))}
  {
    hide Constraints, UniqueSlots, Total;
    assert RowFor(LAYERED, CALL, 1) == Row(CALL, 1, Some(3), Some(4));
    assert Wanted(AFTER, CALL, 1, 0, 0.0, 1.0, []);
    assert forall w :: w in AFTER.workers <==> w == 1;
  }

  /** Once worker 2 is deleted, the shares of the request sum to 3/4. */
  lemma SharesAfterDeletion() returns (results: seq<seq<Row>>)
    ensures Constraints(BEFORE) && AllPresent(BEFORE, LAYERED)
    ensures Constraints(DropWorker(BEFORE, 2)) && Answers(DropWorker(BEFORE, 2), {CALL}, [0], 0.0, 1.0, results)
    ensures ShareAcross(results, CALL) == 0.75
  {
    PairTotal();
    hide Total, Constraints, UniqueSlots, DropWorker, Join;
    PairDeleted();
    PairAnswer();
    var row := Row(CALL, 1, Some(3), Some(4));
    results := [[row]];
    assert Elements([row]) == {row};
    assert [[row]][..0] == [] && [row][..0] == [];
    assert OfRequest([row], CALL) == [row];
    assert ShareSum([row]) == 0.75;
  }
}
