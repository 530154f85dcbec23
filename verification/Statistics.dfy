/** The worker statistics of all accounts together (app.py: worker-stats): where every token of a request ends
    up, model by model. */
module Statistics {
  import opened Basics
  import opened Models
  import opened Rings
  import opened Tables
  import opened Accounting

  /** A figure of the statistics: tokens counted once a worker, or scaled by the worker's share. */
  datatype Column = Counted(kind: Kind) | Shared(kind: Kind)

  /** The figure in the statistics of a model. */
  function Figure(t: Totals, column: Column): real {
    match column
    case Counted(Prompt) => t.prompt
    case Counted(Completion) => t.completion
    case Shared(Prompt) => t.effectivePrompt
    case Shared(Completion) => t.effectiveCompletion
  }

  /** What one attribution row stands for: the tokens of its request, or the worker's share of them. */
  function Cell(row: Row, column: Column): real {
    var tokens := Tokens(row.request, column.kind) as real;
    if column.Counted? then tokens else tokens * OrZero(ShareOf(row))
  }

  function ColumnSum(rows: seq<Row>, column: Column): real {
    if rows == [] then 0.0 else ColumnSum(rows[..|rows| - 1], column) + Cell(rows[|rows| - 1], column)
  }

  function OfModel(rows: seq<Row>, model: Token): seq<Row> {
    if rows == [] then []
    else
      var last := rows[|rows| - 1];
      OfModel(rows[..|rows| - 1], model) + if last.request.model == model then [last] else []
  }

  lemma ColumnSnoc(rows: seq<Row>, last: Row, column: Column)
    ensures ColumnSum(rows + [last], column) == ColumnSum(rows, column) + Cell(last, column)
  {
    assert (rows + [last])[..|rows|] == rows;
  }

  lemma ModelSnoc(rows: seq<Row>, last: Row, model: Token, column: Column)
    ensures ColumnSum(OfModel(rows + [last], model), column) ==
            ColumnSum(OfModel(rows, model), column) + if last.request.model == model then Cell(last, column) else 0.0
  {
    var all := rows + [last];
    assert all[..|all| - 1] == rows && all[|all| - 1] == last;
    assert OfModel(rows, model) + [] == OfModel(rows, model);
    ColumnSnoc(OfModel(rows, model), last, column);
  }

  lemma CellContribution(row: Row, column: Column)
    ensures Figure(Contribution(AttributionEntry(row)), column) == Cell(row, column)
  {
    RowContribution(row);
  }

  lemma {:induction false} FoldColumn(rows: seq<Row>, model: Token, column: Column)
    ensures Figure(Fold(Entries(rows), model), column) == ColumnSum(OfModel(rows, model), column)
  {
    if rows != [] {
      var front, last := rows[..|rows| - 1], rows[|rows| - 1];
      FoldColumn(front, model, column);
      assert Entries(rows) == Entries(front) + [AttributionEntry(last)];
      CellContribution(last, column);
      FoldSnoc(Entries(front), AttributionEntry(last), model);
      assert rows == front + [last];
      ModelSnoc(front, last, model, column);
      hide Contribution, Cell, OfModel, ColumnSum, Fold;
    }
  }

  lemma FoldSnoc(front: seq<Entry>, last: Entry, model: Token)
    ensures Fold(front + [last], model) ==
            if last.model == model then Plus(Fold(front, model), Contribution(last)) else Fold(front, model)
  {
    assert (front + [last])[..|front|] == front;
  }

  // ---- Sums over requests ----

  /** The sum of a table's values, in no particular order. */
  ghost function Sum(values: map<Request, real>): real
    decreases |values.Keys|
  {
    if values == map[] then 0.0
    else
      var r :| r in values;
      assert (values - {r}).Keys == values.Keys - {r};
      values[r] + Sum(values - {r})
  }

  lemma {:induction false} SumTake(values: map<Request, real>, r: Request)
    requires r in values
    ensures Sum(values) == values[r] + Sum(values - {r})
    decreases |values.Keys|
  {
    var q :| q in values && Sum(values) == values[q] + Sum(values - {q});
    if q != r {
      assert (values - {q}).Keys == values.Keys - {q} && (values - {r}).Keys == values.Keys - {r};
      SumTake(values - {q}, r);
      SumTake(values - {r}, q);
      assert values - {q} - {r} == values - {r} - {q};
    }
  }

  lemma SumUpdate(values: map<Request, real>, r: Request, x: real)
    requires r in values
    ensures Sum(values[r := values[r] + x]) == Sum(values) + x
  {
    var updated := values[r := values[r] + x];
    SumTake(values, r);
    SumTake(updated, r);
    assert updated - {r} == values - {r};
  }

  lemma {:induction false} SumAdds(a: map<Request, real>, b: map<Request, real>, both: map<Request, real>)
    requires a.Keys == b.Keys && both.Keys == a.Keys && forall r :: r in a ==> both[r] == a[r] + b[r]
    ensures Sum(both) == Sum(a) + Sum(b)
    decreases |a.Keys|
  {
    if a != map[] {
      var r :| r in a;
      SumTake(a, r);
      SumTake(b, r);
      SumTake(both, r);
      assert (a - {r}).Keys == a.Keys - {r};
      SumAdds(a - {r}, b - {r}, both - {r});
    } else {
      assert b == map[] && both == map[];
    }
  }

  /** Sums compare like their terms, and are equal exactly when all terms are. */
  lemma {:induction false} SumBounded(a: map<Request, real>, b: map<Request, real>)
    requires a.Keys == b.Keys && forall r :: r in a ==> a[r] <= b[r]
    ensures Sum(a) <= Sum(b)
    ensures Sum(a) == Sum(b) <==> forall r :: r in a ==> a[r] == b[r]
    decreases |a.Keys|
  {
    if a != map[] {
      var r :| r in a;
      SumTake(a, r);
      SumTake(b, r);
      assert (a - {r}).Keys == a.Keys - {r};
      SumBounded(a - {r}, b - {r});
      assert forall q :: q in a <==> q == r || q in a - {r};
    } else {
      assert b == map[];
    }
  }

  // ---- Rows by request ----

  function ByRequest(rows: seq<Row>, requests: set<Request>, column: Column): map<Request, real> {
    map r | r in requests :: ColumnSum(OfRequest(rows, r), column)
  }

  lemma OfRequestSnoc(front: seq<Row>, last: Row, r: Request, column: Column)
    ensures ColumnSum(OfRequest(front + [last], r), column) ==
            ColumnSum(OfRequest(front, r), column) + if last.request == r then Cell(last, column) else 0.0
  {
    var all := front + [last];
    assert all[..|all| - 1] == front && all[|all| - 1] == last;
    assert OfRequest(front, r) + [] == OfRequest(front, r);
    ColumnSnoc(OfRequest(front, r), last, column);
  }

  lemma {:induction false} ZeroSum(values: map<Request, real>)
    requires forall r :: r in values ==> values[r] == 0.0
    ensures Sum(values) == 0.0
    decreases |values.Keys|
  {
    if values != map[] {
      var r :| r in values;
      SumTake(values, r);
      assert (values - {r}).Keys == values.Keys - {r};
      ZeroSum(values - {r});
    }
  }

  lemma NoColumn(requests: set<Request>, model: Token, column: Column)
    ensures ColumnSum(OfModel([], model), column) == 0.0 && Sum(ByRequest([], requests, column)) == 0.0
  {
    ZeroSum(ByRequest([], requests, column));
  }

  /** The rows of a model, summed up request by request. */
  lemma {:induction false} Partition(rows: seq<Row>, requests: set<Request>, model: Token, column: Column)
    requires forall r :: r in requests ==> r.model == model
    requires forall row :: row in rows && row.request.model == model ==> row.request in requests
    ensures ColumnSum(OfModel(rows, model), column) == Sum(ByRequest(rows, requests, column))
    decreases |rows|
  {
    hide Cell, ColumnSum, OfModel, OfRequest;
    if rows == [] {
      NoColumn(requests, model, column);
    } else {
      var front, last := rows[..|rows| - 1], rows[|rows| - 1];
      assert rows == front + [last];
      Partition(front, requests, model, column);
      ModelSnoc(front, last, model, column);
      var before, after := ByRequest(front, requests, column), ByRequest(rows, requests, column);
      forall r | r in requests
        ensures after[r] == before[r] + if last.request == r then Cell(last, column) else 0.0
      {
        OfRequestSnoc(front, last, r, column);
      }
      if last.request.model == model {
        assert after == before[last.request := before[last.request] + Cell(last, column)];
        SumUpdate(before, last.request, Cell(last, column));
      } else {
        assert after == before;
      }
    }
  }

  // ---- All accounts together ----

  /** The requests of a model in the window. */
  function Asked(requests: set<Request>, model: Token, begin: Time, end: Time): set<Request> {
    set r | r in requests && r.model == model && begin <= r.createdAt < end
  }

  /** A figure of the model's statistics, over the statistics of all accounts. */
  function FigureAcross(results: seq<seq<Row>>, model: Token, column: Column): real {
    if results == [] then 0.0
    else
      FigureAcross(results[..|results| - 1], model, column) +
      Figure(Fold(Entries(results[|results| - 1]), model), column)
  }

  function Credited(results: seq<seq<Row>>, requests: set<Request>, kind: Kind): map<Request, real> {
    map r | r in requests :: EffectiveAcross(results, r, kind)
  }

  function Served(requests: set<Request>, kind: Kind): map<Request, real> {
    map r | r in requests :: Tokens(r, kind) as real
  }

  lemma {:induction false} SharedIsEffective(rows: seq<Row>, kind: Kind)
    ensures ColumnSum(rows, Shared(kind)) == EffectiveSum(rows, kind)
  {
    if rows != [] {
      SharedIsEffective(rows[..|rows| - 1], kind);
      RowContribution(rows[|rows| - 1]);
    }
  }

  lemma AskedRows(db: Db, requests: set<Request>, a: AccountId, begin: Time, end: Time, rows: seq<Row>, model: Token)
    requires Constraints(db) && Attributes(db, requests, a, begin, end, [], rows)
    ensures forall row :: row in rows && row.request.model == model ==>
              row.request in Asked(requests, model, begin, end)
  {
    hide Constraints;
    forall row | row in rows && row.request.model == model
      ensures row.request in Asked(requests, model, begin, end)
    {
      assert row in Elements(rows);
      JoinInRange(db, requests, a, begin, end, [], row);
    }
  }

  /** One answer: counted tokens come once for each row of a request, shared ones as the rows' shares. */
  lemma AnswerFigure(db: Db, requests: set<Request>, a: AccountId, begin: Time, end: Time, rows: seq<Row>,
                     model: Token, column: Column)
    requires Constraints(db) && Attributes(db, requests, a, begin, end, [], rows)
    ensures Figure(Fold(Entries(rows), model), column) ==
            Sum(ByRequest(rows, Asked(requests, model, begin, end), column))
  {
    hide Attributes, Constraints, Figure, Fold, Entries, ByRequest;
    AskedRows(db, requests, a, begin, end, rows, model);
    FoldColumn(rows, model, column);
    Partition(rows, Asked(requests, model, begin, end), model, column);
  }

  lemma {:induction false} AcrossIsCredited(db: Db, requests: set<Request>, accounts: seq<AccountId>, begin: Time,
                                            end: Time, results: seq<seq<Row>>, model: Token, kind: Kind)
    requires Constraints(db) && Answers(db, requests, accounts, begin, end, results)
    ensures FigureAcross(results, model, Shared(kind)) ==
            Sum(Credited(results, Asked(requests, model, begin, end), kind))
    decreases |results|
  {
    hide Attributes, Constraints, Figure, Fold, Entries;
    var asked := Asked(requests, model, begin, end);
    if results == [] {
      ZeroSum(Credited(results, asked, kind));
    } else {
      var n := |results| - 1;
      var front := results[..n];
      AcrossIsCredited(db, requests, accounts[..n], begin, end, front, model, kind);
      AnswerFigure(db, requests, accounts[n], begin, end, results[n], model, Shared(kind));
      forall r | r in asked
        ensures Credited(results, asked, kind)[r] ==
                Credited(front, asked, kind)[r] + ByRequest(results[n], asked, Shared(kind))[r]
      {
        SharedIsEffective(OfRequest(results[n], r), kind);
      }
      SumAdds(Credited(front, asked, kind), ByRequest(results[n], asked, Shared(kind)), Credited(results, asked, kind));
    }
  }

  /** Conservation in the statistics: over all accounts, the effective tokens of a model in a window never exceed
      the tokens of its requests, and equal them if and only if every request with tokens still has the worker
      rows of all members with layers. */
  lemma StatsConserved(db: Db, requests: set<Request>, accounts: seq<AccountId>, begin: Time, end: Time,
                       results: seq<seq<Row>>, model: Token, kind: Kind)
    requires Constraints(db) && Answers(db, requests, accounts, begin, end, results)
    requires Distinct(accounts) && forall w :: w in db.workers ==> db.workers[w].accountId in accounts
    requires forall r :: r in Asked(requests, model, begin, end) ==>
               && Tokens(r, kind) >= 0 && r.clusterId in db.rings
               && Total(db.rings[r.clusterId]).Some? && Total(db.rings[r.clusterId]).value > 0
    ensures var asked := Asked(requests, model, begin, end);
            && FigureAcross(results, model, Shared(kind)) <= Sum(Served(asked, kind))
            && (FigureAcross(results, model, Shared(kind)) == Sum(Served(asked, kind)) <==>
                  forall r :: r in asked ==> Tokens(r, kind) == 0 || AllPresent(db, db.rings[r.clusterId]))
  {
    hide Answers, Constraints, EffectiveAcross, FigureAcross, Total, AllPresent;
    var asked := Asked(requests, model, begin, end);
    AcrossIsCredited(db, requests, accounts, begin, end, results, model, kind);
    forall r | r in asked
      ensures Credited(results, asked, kind)[r] <= Served(asked, kind)[r]
      ensures Credited(results, asked, kind)[r] == Served(asked, kind)[r] <==>
              Tokens(r, kind) == 0 || AllPresent(db, db.rings[r.clusterId])
    {
      TokensConserved(db, requests, accounts, begin, end, results, r, kind);
    }
    SumBounded(Credited(results, asked, kind), Served(asked, kind));
  }

  // ---- Which rows an answer has ----

  /** The account's workers that served the request and still have their row. */
  ghost function Owned(db: Db, r: Request, a: AccountId): set<WorkerId>
    requires r.clusterId in db.rings
  {
    set w | w in db.rings[r.clusterId] && w in db.workers && db.workers[w].accountId == a
  }

  function RowWorkers(rows: seq<Row>): (ws: seq<WorkerId>)
    ensures |ws| == |rows| && forall i :: 0 <= i < |ws| ==> ws[i] == rows[i].worker
  {
    seq(|rows|, i requires 0 <= i < |rows| => rows[i].worker)
  }

  lemma RowOfRequest(db: Db, requests: set<Request>, a: AccountId, begin: Time, end: Time, rows: seq<Row>, r: Request,
                     row: Row)
    requires Constraints(db) && Attributes(db, requests, a, begin, end, [], rows)
    requires r in requests && begin <= r.createdAt < end && r.clusterId in db.rings
    ensures row in OfRequest(rows, r) <==>
            row.worker in Owned(db, r, a) && UniqueSlots(db.rings[r.clusterId]) &&
            row == RowFor(db.rings[r.clusterId], r, row.worker)
  {
    hide OfRequest, Total;
    OfRequestElements(rows, r);
    assert row in rows <==> row in Elements(rows);
    var ring := db.rings[r.clusterId];
    assert UniqueSlots(ring);
    hide UniqueSlots;
    if row.worker in Owned(db, r, a) && row == RowFor(ring, r, row.worker) {
      assert Wanted(db, r, row.worker, a, begin, end, []);
      assert RowFor(ring, r, row.worker) in Join(db, requests, a, begin, end, []);
    }
  }

  /** A request comes once for each of the account's workers that served it. */
  lemma RowsOfRequest(db: Db, requests: set<Request>, a: AccountId, begin: Time, end: Time, rows: seq<Row>, r: Request)
    requires Constraints(db) && Attributes(db, requests, a, begin, end, [], rows)
    requires r in requests && begin <= r.createdAt < end && r.clusterId in db.rings
    ensures |OfRequest(rows, r)| == |Owned(db, r, a)|
  {
    OfRequestElements(rows, r);
    assert UniqueSlots(db.rings[r.clusterId]);
    hide OfRequest, Total, Owned, UniqueSlots, Constraints, Join;
    var found := OfRequest(rows, r);
    forall row: Row ensures row in found <==> row.worker in Owned(db, r, a) && row == RowAt(db, r, row.worker) {
      RowOfRequest(db, requests, a, begin, end, rows, r, row);
      if row.worker in Owned(db, r, a) { OwnedInside(db, r, a, row.worker); }
    }
    forall w ensures w in RowWorkers(found) <==> w in Owned(db, r, a) {
      if w in RowWorkers(found) {
        var i :| 0 <= i < |found| && RowWorkers(found)[i] == w;
        assert found[i] in found;
      }
      if w in Owned(db, r, a) {
        OwnedInside(db, r, a, w);
        assert RowAt(db, r, w) in found;
        var i :| 0 <= i < |found| && found[i] == RowAt(db, r, w);
        assert RowWorkers(found)[i] == w;
      }
    }
    forall i, j | 0 <= i < j < |found| ensures RowWorkers(found)[i] != RowWorkers(found)[j] {
      assert found[i] in found && found[j] in found && found[i] != found[j];
    }
    assert Elements(RowWorkers(found)) == Owned(db, r, a);
    DistinctCardinality(RowWorkers(found));
  }

  ghost function RowAt(db: Db, r: Request, w: WorkerId): Row {
    if r.clusterId in db.rings && w in db.rings[r.clusterId] && UniqueSlots(db.rings[r.clusterId])
    then RowFor(db.rings[r.clusterId], r, w)
    else Row(r, w, None, None)
  }

  lemma OwnedInside(db: Db, r: Request, a: AccountId, w: WorkerId)
    requires r.clusterId in db.rings && w in Owned(db, r, a)
    ensures w in db.rings[r.clusterId] && RowAt(db, r, w).worker == w
  {
    hide UniqueSlots, Total;
  }

  lemma {:induction false} CountedRows(rows: seq<Row>, r: Request, kind: Kind)
    requires forall row :: row in rows ==> row.request == r
    ensures ColumnSum(rows, Counted(kind)) == |rows| as real * Tokens(r, kind) as real
  {
    if rows != [] {
      var n := |rows| - 1;
      assert forall row :: row in rows[..n] ==> row in rows;
      CountedRows(rows[..n], r, kind);
      assert rows[n] in rows;
      var t := Tokens(r, kind) as real;
      assert (n as real + 1.0) * t == n as real * t + t;
    }
  }

  /** So an account's total tokens of a model are those of the window's requests, each as often as the account
      has workers that served it. */
  lemma TotalsCountWorkers(db: Db, requests: set<Request>, a: AccountId, begin: Time, end: Time, rows: seq<Row>,
                           model: Token, kind: Kind, counted: map<Request, real>)
    requires Constraints(db) && Attributes(db, requests, a, begin, end, [], rows)
    requires counted.Keys == Asked(requests, model, begin, end)
    requires forall r :: r in counted ==>
               r.clusterId in db.rings && counted[r] == |Owned(db, r, a)| as real * Tokens(r, kind) as real
    ensures Figure(Fold(Entries(rows), model), Counted(kind)) == Sum(counted)
  {
    hide Attributes, Constraints, Figure, Fold, Entries, OfRequest, Owned, ColumnSum, Sum;
    AnswerFigure(db, requests, a, begin, end, rows, model, Counted(kind));
    var sums := ByRequest(rows, Asked(requests, model, begin, end), Counted(kind));
    forall r | r in counted ensures sums[r] == counted[r] {
      RowsOfRequest(db, requests, a, begin, end, rows, r);
      OfRequestElements(rows, r);
      CountedRows(OfRequest(rows, r), r, kind);
    }
    assert sums == counted;
  }

  /** Naming workers keeps exactly their rows; naming none keeps all. */
  lemma NamedWorkers(db: Db, requests: set<Request>, a: AccountId, begin: Time, end: Time, ids: seq<WorkerId>,
                     named: seq<Row>, all: seq<Row>)
    requires Constraints(db)
    requires Attributes(db, requests, a, begin, end, ids, named) && Attributes(db, requests, a, begin, end, [], all)
    ensures forall row :: row in named <==> row in all && (ids == [] || row.worker in ids)
  {
    hide Total, UniqueSlots;
    forall row ensures row in named <==> row in all && (ids == [] || row.worker in ids) {
      assert row in named <==> row in Elements(named);
      assert row in all <==> row in Elements(all);
      NamedRow(db, requests, a, begin, end, ids, row);
    }
  }

  lemma NamedRow(db: Db, requests: set<Request>, a: AccountId, begin: Time, end: Time, ids: seq<WorkerId>, row: Row)
    requires Constraints(db)
    ensures row in Join(db, requests, a, begin, end, ids) <==>
            row in Join(db, requests, a, begin, end, []) && (ids == [] || row.worker in ids)
  {
    hide Total, UniqueSlots;
    if row in Join(db, requests, a, begin, end, []) && (ids == [] || row.worker in ids) {
      var r, w :| r in requests && r.clusterId in db.rings && w in db.rings[r.clusterId] &&
                  Wanted(db, r, w, a, begin, end, []) && UniqueSlots(db.rings[r.clusterId]) &&
                  row == RowFor(db.rings[r.clusterId], r, w);
      assert Wanted(db, r, w, a, begin, end, ids);
    }
  }
}
