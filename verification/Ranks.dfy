/** The head's layer report: ranks (ring positions, as text) mapped to worker identifiers, once in
    the ready handler and once in the WebSocket handler (app.py). */
module Ranks {
  import opened Basics
  import opened Models
  import opened Text

  /** A decoded JSON value, as far as isinstance(v, int) looks at it: true and false are 1 and 0. */
  datatype Value = Int(n: int) | NotInt

  /** A decoded JSON object in insertion order; its keys are strings. */
  type Payload = seq<(string, Value)>

  /** `layer_windows` of a WebSocket frame. */
  datatype FrameWindows = Absent | NotObject | Object(payload: Payload)

  /** The entries with a nonnegative integer. */
  function Counts(payload: Payload): seq<(string, nat)> {
    if payload == [] then []
    else
      var last := payload[|payload| - 1];
      var front := Counts(payload[..|payload| - 1]);
      if last.1.Int? && last.1.n >= 0 then front + [(last.0, last.1.n)] else front
  }

  /** int(rank), when it is a position of the ring. */
  function Position(members: seq<WorkerId>, rank: string): (at: Option<nat>)
    ensures at.Some? ==> at.value < |members|
  {
    match ParseInt(rank)
    case None => None
    case Some(i) => if 0 <= i < |members| then Some(i) else None
  }

  function Record(members: seq<WorkerId>, windows: map<WorkerId, nat>, entry: (string, nat)): map<WorkerId, nat> {
    match Position(members, entry.0)
    case None => windows
    case Some(i) => windows[members[i] := entry.1]
  }

  function ByWorker(members: seq<WorkerId>, counts: seq<(string, nat)>): map<WorkerId, nat> {
    if counts == [] then map[]
    else Record(members, ByWorker(members, counts[..|counts| - 1]), counts[|counts| - 1])
  }

  /** The loop of the ready handler; the body field was validated to be an object. */
  method RestDistribution(members: seq<WorkerId>, payload: Payload) returns (windows: map<WorkerId, nat>)
    ensures windows == ByWorker(members, Counts(payload))
  {
    var counts := Counts(payload);
    windows := map[];
    var k := 0;
    while k < |counts|
      invariant 0 <= k <= |counts| && windows == ByWorker(members, counts[..k])
    {
      assert counts[..k + 1][..k] == counts[..k];
      var index := ParseInt(counts[k].0);
      if index.Some? {
        if 0 <= index.value < |members| {
          windows := windows[members[index.value] := counts[k].1];
        }
      }
      k := k + 1;
    }
    assert counts[..|counts|] == counts;
  }

  /** The loop of the frame handler: anything but an object counts as an empty report. */
  method FrameDistribution(members: seq<WorkerId>, frame: FrameWindows) returns (windows: map<WorkerId, nat>)
    ensures windows == if frame.Object? then ByWorker(members, Counts(frame.payload)) else map[]
  {
    var counts := if frame.Object? then Counts(frame.payload) else [];
    windows := map[];
    for k := 0 to |counts|
      invariant windows == ByWorker(members, counts[..k])
    {
      assert counts[..k + 1][..k] == counts[..k];
      match ParseInt(counts[k].0)
      case None =>
      case Some(index) =>
        if 0 <= index < |members| {
          windows := windows[members[index] := counts[k].1];
        }
    }
    assert counts[..|counts|] == counts;
  }

  // ---- What is recorded ----

  /** Only members are credited, and the last entry for a position wins. */
  lemma {:induction false} LastEntryWins(members: seq<WorkerId>, counts: seq<(string, nat)>, i: nat)
    requires Distinct(members) && i < |members|
    ensures ByWorker(members, counts).Keys <= Elements(members)
    ensures members[i] in ByWorker(members, counts) <==>
            exists k :: 0 <= k < |counts| && Position(members, counts[k].0) == Some(i)
    ensures forall k :: 0 <= k < |counts| && Position(members, counts[k].0) == Some(i) &&
                        (forall l :: k < l < |counts| ==> Position(members, counts[l].0) != Some(i)) ==>
              ByWorker(members, counts)[members[i]] == counts[k].1
    decreases |counts|
  {
    hide Position;
    if counts != [] {
      var n := |counts| - 1;
      var front, last := counts[..n], counts[n];
      LastEntryWins(members, front, i);
      assert forall k :: 0 <= k < n ==> front[k] == counts[k];
      var at := Position(members, last.0);
      if at.Some? {
        assert members[at.value] in Elements(members);
        assert at.value != i ==> members[at.value] != members[i];
      }
      if at == Some(i) {
        assert Position(members, counts[n].0) == Some(i);
      }
    }
  }

  /** Entry k of the payload credits members[i]: a nonnegative integer, zero included, under a rank that reads
      as i. */
  predicate Credits(members: seq<WorkerId>, payload: Payload, k: nat, i: nat)
    requires k < |payload|
  {
    payload[k].1.Int? && payload[k].1.n >= 0 && Position(members, payload[k].0) == Some(i)
  }

  /** The same from the payload on: a member is credited if and only if some entry credits it, and with what the
      last such entry says; entries that are no integers or negative count for nothing. */
  lemma {:induction false} LastCreditWins(members: seq<WorkerId>, payload: Payload, i: nat)
    requires Distinct(members) && i < |members|
    ensures ByWorker(members, Counts(payload)).Keys <= Elements(members)
    ensures members[i] in ByWorker(members, Counts(payload)) <==>
            exists k: nat :: k < |payload| && Credits(members, payload, k, i)
    ensures forall k: nat :: k < |payload| && Credits(members, payload, k, i) &&
                             (forall l: nat :: k < l < |payload| ==> !Credits(members, payload, l, i)) ==>
              ByWorker(members, Counts(payload))[members[i]] == payload[k].1.n
    decreases |payload|
  {
    hide Position, ByWorker, Counts;
    if payload == [] {
      NoCredits(members);
    } else {
      var n := |payload| - 1;
      var front := payload[..n];
      LastCreditWins(members, front, i);
      CreditSnoc(members, payload, i);
      assert forall k: nat :: k < n ==> (Credits(members, front, k, i) <==> Credits(members, payload, k, i));
    }
  }

  lemma NoCredits(members: seq<WorkerId>)
    ensures ByWorker(members, Counts([])) == map[]
  {
  }

  /** What the last entry of a payload does. */
  lemma CreditSnoc(members: seq<WorkerId>, payload: Payload, i: nat)
    requires Distinct(members) && i < |members| && payload != []
    ensures var n := |payload| - 1;
            var before, after := ByWorker(members, Counts(payload[..n])), ByWorker(members, Counts(payload));
            && after.Keys <= before.Keys + Elements(members)
            && (if Credits(members, payload, n, i)
                then members[i] in after && after[members[i]] == payload[n].1.n
                else (members[i] in after <==> members[i] in before) &&
                     (members[i] in before ==> after[members[i]] == before[members[i]]))
  {
    hide Position, Counts;
    var last := payload[|payload| - 1];
    CountsSnoc(payload);
    var at := Position(members, last.0);
    if at.Some? {
      assert members[at.value] in Elements(members);
      assert at.value != i ==> members[at.value] != members[i];
    }
  }

  lemma CountsSnoc(payload: Payload)
    requires payload != []
    ensures var last := payload[|payload| - 1];
            var front := Counts(payload[..|payload| - 1]);
            if last.1.Int? && last.1.n >= 0
            then && Counts(payload) != [] && Counts(payload)[|Counts(payload)| - 1] == (last.0, last.1.n)
                 && Counts(payload)[..|Counts(payload)| - 1] == front
            else Counts(payload) == front
  {
  }

  predicate RankText(n: nat, rank: string) {
    exists i :: 0 <= i < n && rank == Dec(i)
  }

  /** Ranks printed in decimal, in range, each once: what the head sends. */
  ghost predicate Canonical(n: nat, counts: seq<(string, nat)>) {
    && (forall k :: 0 <= k < |counts| ==> RankText(n, counts[k].0))
    && (forall k, l :: 0 <= k < l < |counts| ==> counts[k].0 != counts[l].0)
  }

  lemma DecPosition(members: seq<WorkerId>, i: nat)
    requires i < |members|
    ensures Position(members, Dec(i)) == Some(i)
  {
    ParseIntText(i);
    assert IntText(i) == Dec(i);
  }

  /** The layers credited along the ring. */
  function WindowSum(members: seq<WorkerId>, windows: map<WorkerId, nat>): nat {
    if members == [] then 0
    else
      var w := members[|members| - 1];
      WindowSum(members[..|members| - 1], windows) + if w in windows then windows[w] else 0
  }

  function CountSum(counts: seq<(string, nat)>): nat {
    if counts == [] then 0 else CountSum(counts[..|counts| - 1]) + counts[|counts| - 1].1
  }

  lemma {:induction false} WindowSumElsewhere(members: seq<WorkerId>, windows: map<WorkerId, nat>, w: WorkerId, n: nat)
    requires w !in members
    ensures WindowSum(members, windows[w := n]) == WindowSum(members, windows)
  {
    if members != [] {
      WindowSumElsewhere(members[..|members| - 1], windows, w, n);
    }
  }

  lemma {:induction false} WindowSumUpdate(members: seq<WorkerId>, windows: map<WorkerId, nat>, i: nat, n: nat)
    requires Distinct(members) && i < |members| && members[i] !in windows
    ensures WindowSum(members, windows[members[i] := n]) == WindowSum(members, windows) + n
  {
    var last := |members| - 1;
    if i == last {
      WindowSumElsewhere(members[..last], windows, members[i], n);
    } else {
      WindowSumUpdate(members[..last], windows, i, n);
    }
  }

  lemma PositionIsRank(members: seq<WorkerId>, rank: string, i: nat)
    requires RankText(|members|, rank) && i < |members|
    ensures Position(members, rank) == Some(i) <==> rank == Dec(i)
  {
    var j :| 0 <= j < |members| && rank == Dec(j);
    DecPosition(members, j);
    if j == i { DecPosition(members, i); }
    if Dec(j) == Dec(i) { DecInjective(j, i); }
  }

  /** On a canonical report the mapping is one-to-one: members[i] is credited exactly when rank i is
      reported, and then with that count. */
  lemma CanonicalCredit(members: seq<WorkerId>, counts: seq<(string, nat)>, i: nat)
    requires Distinct(members) && Canonical(|members|, counts) && i < |members|
    ensures members[i] in ByWorker(members, counts) <==> exists k :: 0 <= k < |counts| && counts[k].0 == Dec(i)
    ensures forall k :: 0 <= k < |counts| && counts[k].0 == Dec(i) ==>
              members[i] in ByWorker(members, counts) && ByWorker(members, counts)[members[i]] == counts[k].1
  {
    LastEntryWins(members, counts, i);
    forall k | 0 <= k < |counts| ensures Position(members, counts[k].0) == Some(i) <==> counts[k].0 == Dec(i) {
      PositionIsRank(members, counts[k].0, i);
    }
  }

  /** A payload whose ranks are decimal, in range and each once: members[i] is credited if and only if rank i
      comes with a nonnegative integer, zero included, and then with that number. */
  lemma CanonicalPayload(members: seq<WorkerId>, payload: Payload, i: nat)
    requires Distinct(members) && i < |members|
    requires forall k :: 0 <= k < |payload| ==> RankText(|members|, payload[k].0)
    requires forall k, l :: 0 <= k < l < |payload| ==> payload[k].0 != payload[l].0
    ensures members[i] in ByWorker(members, Counts(payload)) <==>
            exists k :: 0 <= k < |payload| && payload[k].0 == Dec(i) && payload[k].1.Int? && payload[k].1.n >= 0
    ensures forall k :: 0 <= k < |payload| && payload[k].0 == Dec(i) && payload[k].1.Int? && payload[k].1.n >= 0 ==>
              members[i] in ByWorker(members, Counts(payload)) &&
              ByWorker(members, Counts(payload))[members[i]] == payload[k].1.n
  {
    hide Position, Counts, ByWorker, RankText, Dec;
    LastCreditWins(members, payload, i);
    forall k: nat | k < |payload|
      ensures Credits(members, payload, k, i) <==>
              payload[k].0 == Dec(i) && payload[k].1.Int? && payload[k].1.n >= 0
    {
      PositionIsRank(members, payload[k].0, i);
    }
    forall k: nat | k < |payload| && Credits(members, payload, k, i)
      ensures forall l: nat :: k < l < |payload| ==> !Credits(members, payload, l, i)
    {
    }
  }

  /** And no layer is lost. */
  lemma {:induction false} CanonicalTotal(members: seq<WorkerId>, counts: seq<(string, nat)>)
    requires Distinct(members) && Canonical(|members|, counts)
    ensures WindowSum(members, ByWorker(members, counts)) == CountSum(counts)
    decreases |counts|
  {
    if counts == [] {
      NoWindows(members);
    } else {
      var n := |counts| - 1;
      var front := counts[..n];
      assert forall k :: 0 <= k < n ==> front[k] == counts[k];
      CanonicalTotal(members, front);
      var i :| 0 <= i < |members| && counts[n].0 == Dec(i);
      DecPosition(members, i);
      CanonicalCredit(members, front, i);
      WindowSumUpdate(members, ByWorker(members, front), i, counts[n].1);
    }
  }

  lemma {:induction false} NoWindows(members: seq<WorkerId>)
    ensures WindowSum(members, map[]) == 0
  {
    if members != [] {
      NoWindows(members[..|members| - 1]);
    }
  }
}
