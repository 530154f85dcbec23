/** The waitlist of a model and the part of it that forms a cluster (scheduler.py: _waitlist and
    the accumulation loop of _form_cluster). */
module Waitlists {
  import opened Basics
  import opened Models

  predicate Eligible(w: Worker, model: Token, gguf: Hash, now: Time) {
    w.model == model && w.gguf == gguf && w.status.Waitlisted? && w.online && w.assignableAt <= now
  }

  /** The list comprehension over the scanned rows. */
  function Keep(rows: seq<Worker>, model: Token, gguf: Hash, now: Time): seq<Worker> {
    if rows == [] then []
    else
      var kept := Keep(rows[..|rows| - 1], model, gguf, now);
      var last := rows[|rows| - 1];
      if Eligible(last, model, gguf, now) then kept + [last] else kept
  }

  /** Insertion behind everything created at the same time or earlier. */
  function Insert(ws: seq<Worker>, w: Worker): seq<Worker> {
    if ws == [] || ws[|ws| - 1].createdAt <= w.createdAt then ws + [w]
    else Insert(ws[..|ws| - 1], w) + [ws[|ws| - 1]]
  }

  /** workers.sort(key=created_at): Python's sort is stable. */
  function SortByCreation(ws: seq<Worker>): seq<Worker> {
    if ws == [] then [] else Insert(SortByCreation(ws[..|ws| - 1]), ws[|ws| - 1])
  }

  function Waitlist(rows: seq<Worker>, model: Token, gguf: Hash, now: Time): seq<Worker> {
    SortByCreation(Keep(rows, model, gguf, now))
  }

  ghost predicate Sorted(ws: seq<Worker>) {
    forall i, j :: 0 <= i < j < |ws| ==> ws[i].createdAt <= ws[j].createdAt
  }

  function WorkerIds(ws: seq<Worker>): (ids: seq<WorkerId>)
    ensures |ids| == |ws|
    ensures forall i :: 0 <= i < |ids| ==> ids[i] == ws[i].workerId
  {
    seq(|ws|, i requires 0 <= i < |ws| => ws[i].workerId)
  }

  // ---- Sorting ----

  lemma {:induction false} InsertBag(ws: seq<Worker>, w: Worker)
    ensures multiset(Insert(ws, w)) == multiset(ws) + multiset{w}
  {
    if ws != [] && ws[|ws| - 1].createdAt > w.createdAt {
      var front, last := ws[..|ws| - 1], ws[|ws| - 1];
      InsertBag(front, w);
      assert ws == front + [last];
    }
  }

  lemma SortedSnoc(ws: seq<Worker>, last: Worker)
    requires Sorted(ws) && forall w :: w in ws ==> w.createdAt <= last.createdAt
    ensures Sorted(ws + [last])
  {
  }

  lemma {:induction false} InsertSorted(ws: seq<Worker>, w: Worker)
    requires Sorted(ws)
    ensures Sorted(Insert(ws, w))
  {
    if ws == [] || ws[|ws| - 1].createdAt <= w.createdAt {
      SortedSnoc(ws, w);
    } else {
      var front, last := ws[..|ws| - 1], ws[|ws| - 1];
      InsertSorted(front, w);
      InsertBag(front, w);
      forall v | v in Insert(front, w) ensures v.createdAt <= last.createdAt {
        assert v in multiset(Insert(front, w));
      }
      SortedSnoc(Insert(front, w), last);
    }
  }

  lemma NothingSorted()
    ensures Sorted([])
  {
  }

  lemma {:induction false} SortSpec(ws: seq<Worker>)
    ensures Sorted(SortByCreation(ws)) && multiset(SortByCreation(ws)) == multiset(ws)
  {
    hide Insert, Sorted;
    if ws == [] {
      NothingSorted();
    } else {
      var front, last := ws[..|ws| - 1], ws[|ws| - 1];
      SortSpec(front);
      InsertSorted(SortByCreation(front), last);
      InsertBag(SortByCreation(front), last);
      assert ws == front + [last];
    }
  }

  /** The rows created at time t, in order. */
  function CreatedAt(ws: seq<Worker>, t: Time): seq<Worker> {
    if ws == [] then []
    else CreatedAt(ws[..|ws| - 1], t) + if ws[|ws| - 1].createdAt == t then [ws[|ws| - 1]] else []
  }

  lemma {:induction false} InsertStable(ws: seq<Worker>, w: Worker, t: Time)
    ensures CreatedAt(Insert(ws, w), t) == CreatedAt(ws, t) + if w.createdAt == t then [w] else []
  {
    if ws == [] || ws[|ws| - 1].createdAt <= w.createdAt {
      assert (ws + [w])[..|ws|] == ws;
    } else {
      var front, last := ws[..|ws| - 1], ws[|ws| - 1];
      InsertStable(front, w, t);
      var inserted := Insert(front, w) + [last];
      assert inserted[..|inserted| - 1] == Insert(front, w);
    }
  }

  /** Workers created at the same time stay in the order they had. */
  lemma {:induction false} SortStable(ws: seq<Worker>, t: Time)
    ensures CreatedAt(SortByCreation(ws), t) == CreatedAt(ws, t)
  {
    if ws != [] {
      SortStable(ws[..|ws| - 1], t);
      InsertStable(SortByCreation(ws[..|ws| - 1]), ws[|ws| - 1], t);
    }
  }

  lemma {:induction false} KeepSpec(rows: seq<Worker>, model: Token, gguf: Hash, now: Time)
    ensures forall w :: w in Keep(rows, model, gguf, now) <==> w in rows && Eligible(w, model, gguf, now)
    ensures multiset(Keep(rows, model, gguf, now)) <= multiset(rows)
  {
    if rows != [] {
      var front, last := rows[..|rows| - 1], rows[|rows| - 1];
      KeepSpec(front, model, gguf, now);
      assert rows == front + [last];
    }
  }

  /** The waitlist: exactly the eligible rows, first come first served. */
  lemma WaitlistSpec(rows: seq<Worker>, model: Token, gguf: Hash, now: Time)
    ensures Sorted(Waitlist(rows, model, gguf, now))
    ensures forall w :: w in Waitlist(rows, model, gguf, now) <==> w in rows && Eligible(w, model, gguf, now)
    ensures multiset(Waitlist(rows, model, gguf, now)) <= multiset(rows)
  {
    var kept := Keep(rows, model, gguf, now);
    KeepSpec(rows, model, gguf, now);
    SortSpec(kept);
    var ws := Waitlist(rows, model, gguf, now);
    assert forall w :: w in ws <==> w in multiset(ws);
    assert forall w :: w in kept <==> w in multiset(kept);
  }

  /** Rows with distinct identifiers give a waitlist with distinct identifiers. */
  lemma WaitlistDistinct(rows: seq<Worker>, model: Token, gguf: Hash, now: Time)
    requires Distinct(WorkerIds(rows))
    ensures Distinct(WorkerIds(Waitlist(rows, model, gguf, now)))
  {
    var ws := Waitlist(rows, model, gguf, now);
    WaitlistSpec(rows, model, gguf, now);
    forall i, j | 0 <= i < j < |ws| ensures ws[i].workerId != ws[j].workerId {
      if ws[i].workerId == ws[j].workerId {
        assert ws[i] in ws && ws[j] in ws;
        SameIdSameRow(rows, ws[i], ws[j]);
        TwiceInMultiset(ws, i, j);
        OnceInMultiset(rows, ws[i]);
        assert false;
      }
    }
  }

  lemma SameIdSameRow(rows: seq<Worker>, v: Worker, w: Worker)
    requires Distinct(WorkerIds(rows)) && v in rows && w in rows && v.workerId == w.workerId
    ensures v == w
  {
    var i :| 0 <= i < |rows| && rows[i] == v;
    var j :| 0 <= j < |rows| && rows[j] == w;
    assert WorkerIds(rows)[i] == WorkerIds(rows)[j];
  }

  lemma TwiceInMultiset(ws: seq<Worker>, i: nat, j: nat)
    requires i < j < |ws| && ws[i] == ws[j]
    ensures multiset(ws)[ws[i]] >= 2
  {
    assert ws == ws[..i] + [ws[i]] + ws[i + 1..j] + [ws[j]] + ws[j + 1..];
  }

  lemma {:induction false} OnceInMultiset(rows: seq<Worker>, w: Worker)
    requires Distinct(WorkerIds(rows))
    ensures multiset(rows)[w] <= 1
  {
    if rows != [] {
      var front, last := rows[..|rows| - 1], rows[|rows| - 1];
      assert rows == front + [last];
      forall i, j | 0 <= i < j < |front| ensures WorkerIds(front)[i] != WorkerIds(front)[j] {
        assert WorkerIds(rows)[i] != WorkerIds(rows)[j];
      }
      OnceInMultiset(front, w);
      if w == last {
        forall i | 0 <= i < |front| ensures front[i] != w {
          assert WorkerIds(rows)[i] != WorkerIds(rows)[|front|];
        }
        assert w !in front;
      }
    }
  }

  // ---- The shortest sufficient prefix ----

  function MemorySum(ws: seq<Worker>): int {
    if ws == [] then 0 else MemorySum(ws[..|ws| - 1]) + ws[|ws| - 1].memory
  }

  /** The least k' >= k whose first k' workers reach the requirement. */
  function Reach(ws: seq<Worker>, required: int, k: nat): Option<nat>
    decreases |ws| - k
  {
    if k > |ws| then None
    else if MemorySum(ws[..k]) >= required then Some(k)
    else Reach(ws, required, k + 1)
  }

  /** How many workers of the waitlist form the cluster; None when no cluster is formed. */
  function PrefixSize(ws: seq<Worker>, required: int): Option<nat> {
    Reach(ws, required, 1)
  }

  lemma {:induction false} ReachSpec(ws: seq<Worker>, required: int, k: nat)
    ensures Reach(ws, required, k).None? <==> forall j :: k <= j <= |ws| ==> MemorySum(ws[..j]) < required
    ensures Reach(ws, required, k).Some? ==>
              var n := Reach(ws, required, k).value;
              && k <= n <= |ws|
              && MemorySum(ws[..n]) >= required
              && forall j :: k <= j < n ==> MemorySum(ws[..j]) < required
    decreases |ws| - k
  {
    hide MemorySum;
    if k <= |ws| && MemorySum(ws[..k]) < required {
      ReachSpec(ws, required, k + 1);
    }
  }

  lemma {:induction false} MemorySumMonotone(ws: seq<Worker>, j: nat)
    requires forall w :: w in ws ==> w.memory >= 0
    requires j <= |ws|
    ensures MemorySum(ws[..j]) <= MemorySum(ws)
    decreases |ws| - j
  {
    if j == |ws| {
      assert ws[..j] == ws;
    } else {
      MemorySumMonotone(ws, j + 1);
      assert ws[..j + 1][..j] == ws[..j];
      assert ws[j] in ws;
    }
  }

  /** The chosen workers are the shortest nonempty prefix whose memory reaches the requirement;
      nothing is formed exactly when the waitlist is empty or falls short as a whole. */
  lemma ShortestPrefix(ws: seq<Worker>, required: int)
    requires forall w :: w in ws ==> w.memory >= 0
    ensures PrefixSize(ws, required).None? <==> ws == [] || MemorySum(ws) < required
    ensures PrefixSize(ws, required).Some? ==>
              var n := PrefixSize(ws, required).value;
              && 1 <= n <= |ws|
              && MemorySum(ws[..n]) >= required
              && forall j :: 1 <= j < n ==> MemorySum(ws[..j]) < required
  {
    ReachSpec(ws, required, 1);
    assert ws[..|ws|] == ws;
    if ws != [] && MemorySum(ws) < required {
      forall j | 1 <= j <= |ws| ensures MemorySum(ws[..j]) < required {
        MemorySumMonotone(ws, j);
      }
    }
  }

  lemma {:induction false} MemorySumAtLeast(ws: seq<Worker>, least: nat)
    requires forall w :: w in ws ==> w.memory >= least
    ensures MemorySum(ws) >= |ws| * least
  {
    if ws != [] {
      assert forall w :: w in ws[..|ws| - 1] ==> w in ws;
      assert ws[|ws| - 1] in ws;
      MemorySumAtLeast(ws[..|ws| - 1], least);
    }
  }

  /** The memory of some workers together, added up in no particular order. */
  ghost function Pooled(workers: map<WorkerId, Worker>, ids: set<WorkerId>): int
    requires ids <= workers.Keys
  {
    if ids == {} then 0
    else
      var w :| w in ids;
      workers[w].memory + Pooled(workers, ids - {w})
  }

  /** Any of them may be counted first. */
  lemma {:induction false} PooledTake(workers: map<WorkerId, Worker>, ids: set<WorkerId>, w: WorkerId)
    requires w in ids && ids <= workers.Keys
    ensures Pooled(workers, ids) == workers[w].memory + Pooled(workers, ids - {w})
    decreases ids
  {
    var v :| v in ids && Pooled(workers, ids) == workers[v].memory + Pooled(workers, ids - {v});
    if v != w {
      PooledTake(workers, ids - {v}, w);
      PooledTake(workers, ids - {w}, v);
      assert ids - {v} - {w} == ids - {w} - {v};
    }
  }

  lemma {:induction false} PooledSame(a: map<WorkerId, Worker>, b: map<WorkerId, Worker>, ids: set<WorkerId>)
    requires ids <= a.Keys && ids <= b.Keys && forall w :: w in ids ==> a[w].memory == b[w].memory
    ensures Pooled(a, ids) == Pooled(b, ids)
    decreases ids
  {
    if ids != {} {
      var w :| w in ids;
      PooledTake(a, ids, w);
      PooledTake(b, ids, w);
      PooledSame(a, b, ids - {w});
    }
  }

  /** Adding up a list of distinct workers one by one gives their memory together. */
  lemma {:induction false} MemoryPooled(workers: map<WorkerId, Worker>, ws: seq<Worker>)
    requires Distinct(WorkerIds(ws))
    requires forall w :: w in ws ==> w.workerId in workers && workers[w.workerId] == w
    ensures Elements(WorkerIds(ws)) <= workers.Keys && MemorySum(ws) == Pooled(workers, Elements(WorkerIds(ws)))
  {
    forall id | id in WorkerIds(ws) ensures id in workers {
      var i :| 0 <= i < |ws| && WorkerIds(ws)[i] == id;
      assert ws[i] in ws;
    }
    if ws != [] {
      var front, last := ws[..|ws| - 1], ws[|ws| - 1];
      assert WorkerIds(ws) == WorkerIds(front) + [last.workerId];
      assert forall w :: w in front ==> w in ws;
      DistinctFront(WorkerIds(front), last.workerId);
      MemoryPooled(workers, front);
      assert Elements(WorkerIds(ws)) - {last.workerId} == Elements(WorkerIds(front));
      assert last in ws && last.workerId in Elements(WorkerIds(ws));
      PooledTake(workers, Elements(WorkerIds(ws)), last.workerId);
    }
  }

  lemma DistinctFront(front: seq<WorkerId>, last: WorkerId)
    requires Distinct(front + [last])
    ensures Distinct(front) && last !in front
  {
    var all := front + [last];
    forall i | 0 <= i < |front| ensures front[i] != last {
      assert all[i] != all[|front|];
    }
    forall i, j | 0 <= i < j < |front| ensures front[i] != front[j] {
      assert all[i] != all[j];
    }
  }

  /** If `most` workers of the least memory suffice, no formed cluster has more members. */
  lemma PrefixBound(ws: seq<Worker>, required: int, least: nat, most: nat)
    requires forall w :: w in ws ==> w.memory >= least
    requires 1 <= most && most * least >= required
    ensures PrefixSize(ws, required).Some? ==> PrefixSize(ws, required).value <= most
  {
    ReachSpec(ws, required, 1);
    if PrefixSize(ws, required).Some? && PrefixSize(ws, required).value > most {
      assert forall w :: w in ws[..most] ==> w in ws;
      MemorySumAtLeast(ws[..most], least);
    }
  }

  /** No worker is chosen ahead of an eligible one that was created earlier. */
  lemma FirstComeFirstServed(rows: seq<Worker>, model: Token, gguf: Hash, now: Time, n: nat, v: Worker, w: Worker)
    requires n <= |Waitlist(rows, model, gguf, now)|
    requires w in Waitlist(rows, model, gguf, now)[..n]
    requires v in rows && Eligible(v, model, gguf, now) && v.createdAt < w.createdAt
    ensures v in Waitlist(rows, model, gguf, now)[..n]
  {
    var ws := Waitlist(rows, model, gguf, now);
    WaitlistSpec(rows, model, gguf, now);
    var i :| 0 <= i < n && ws[i] == w;
    var j :| 0 <= j < |ws| && ws[j] == v;
    assert j < i;
    assert ws[..n][j] == v;
  }
}
