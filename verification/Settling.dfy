/** Repeated rounds of formation at one clock reading: they come to an end, and who is grouped with
    whom does not depend on the order of the models. */
module Settling {
  import opened Basics
  import opened Models
  import opened Rings
  import opened Tables
  import opened Addressing
  import opened Waitlists
  import opened Scheduling
  import opened Invariants
  import opened Transitions
  import opened Consequences

  predicate Waits(w: Worker, now: Time) {
    w.status.Waitlisted? && w.online && w.assignableAt <= now
  }

  ghost function Waiting(db: Db, now: Time): set<WorkerId> {
    set w | w in db.workers && Waits(db.workers[w], now)
  }

  // ---- Whose turn it is depends on the waiting rows only ----

  /** The two databases have the same workers of the model waiting, in the same scan order. */
  ghost predicate SameWaiting(a: Db, b: Db, model: Token, now: Time) {
    && a.scan == b.scan && a.workers.Keys == b.workers.Keys
    && forall w :: w in a.workers && w in b.workers && (a.workers[w].model == model || b.workers[w].model == model) ==>
         SameRow(a.workers[w], b.workers[w], now)
  }

  predicate SameRow(v: Worker, w: Worker, now: Time) {
    v == w || (!Waits(v, now) && !Waits(w, now))
  }

  lemma {:induction false} KeepSame(v: seq<Worker>, w: seq<Worker>, model: Token, gguf: Hash, now: Time)
    requires |v| == |w|
    requires forall i :: 0 <= i < |v| && (v[i].model == model || w[i].model == model) ==> SameRow(v[i], w[i], now)
    ensures Keep(v, model, gguf, now) == Keep(w, model, gguf, now)
  {
    if v != [] {
      KeepSame(v[..|v| - 1], w[..|v| - 1], model, gguf, now);
      assert v[|v| - 1].model == model || w[|v| - 1].model == model ==> SameRow(v[|v| - 1], w[|v| - 1], now);
    }
  }

  lemma ChosenSame(cfg: Settings, a: Db, b: Db, model: Token, now: Time)
    requires Constraints(a) && Constraints(b) && SameWaiting(a, b, model, now)
    ensures Chosen(cfg, a, model, now) == Chosen(cfg, b, model, now)
  {
    hide Keep, SortByCreation, SameRow;
    if model in cfg.models {
      assert forall i :: 0 <= i < |Rows(a)| ==>
               Rows(a)[i] == a.workers[a.scan[i]] && Rows(b)[i] == b.workers[a.scan[i]];
      hide Rows, Constraints;
      KeepSame(Rows(a), Rows(b), model, cfg.models[model].gguf, now);
    }
  }

  // ---- What forming takes from the waiting workers ----

  /** The workers `ids` stopped waiting; every other row is as it was. */
  ghost predicate Took(db: Db, after: Db, ids: set<WorkerId>, now: Time) {
    && after.scan == db.scan && after.workers.Keys == db.workers.Keys
    && (forall w :: w in ids ==> w in db.workers && Waits(db.workers[w], now) && !Waits(after.workers[w], now))
    && (forall w :: w in db.workers && w !in ids ==> after.workers[w] == db.workers[w])
  }

  lemma TookChain(a: Db, b: Db, c: Db, first: set<WorkerId>, rest: set<WorkerId>, now: Time)
    requires Took(a, b, first, now) && Took(b, c, rest, now)
    ensures Took(a, c, first + rest, now)
  {
    hide Waits;
  }

  lemma TookSameWaiting(db: Db, after: Db, ids: set<WorkerId>, model: Token, now: Time)
    requires Took(db, after, ids, now)
    requires forall w :: w in ids && w in db.workers && w in after.workers ==>
               db.workers[w].model != model && after.workers[w].model != model
    ensures SameWaiting(db, after, model, now)
  {
    hide Waits;
  }

  lemma TookShrinks(db: Db, after: Db, ids: set<WorkerId>, now: Time)
    requires Took(db, after, ids, now)
    ensures Waiting(after, now) == Waiting(db, now) - ids && ids <= Waiting(db, now)
    ensures |Waiting(after, now)| == |Waiting(db, now)| - |ids|
  {
    assert Waiting(after, now) == Waiting(db, now) - ids;
  }

  // ---- One cluster ----

  type Group = (Token, seq<WorkerId>)

  /** The model and the members, in ring order, of every cluster that was added. */
  ghost function NewGroups(db: Db, after: Db): set<Group> {
    set c | c in after.clusters && c !in db.clusters && c in after.rings && UniqueSlots(after.rings[c]) ::
      (after.clusters[c].model, RingOrder(after.rings[c]))
  }

  lemma FormedTook(db: Db, after: Db, model: Token, gguf: Hash, chosen: seq<Worker>, third: nat, now: Time)
    requires Formed(db, after, model, chosen, third, now)
    requires forall w :: w in chosen ==>
               w.workerId in db.workers && db.workers[w.workerId] == w && Eligible(w, model, gguf, now)
    ensures Took(db, after, Elements(WorkerIds(chosen)), now)
    ensures forall w :: w in WorkerIds(chosen) ==>
              w in db.workers && w in after.workers && db.workers[w].model == model && after.workers[w].model == model
  {
    hide HostText, SubnetText, FormedRing;
    forall w | w in WorkerIds(chosen)
      ensures w in db.workers && w in after.workers && Waits(db.workers[w], now) && !Waits(after.workers[w], now)
      ensures db.workers[w].model == model && after.workers[w].model == model
    {
      var i :| 0 <= i < |chosen| && WorkerIds(chosen)[i] == w;
      assert chosen[i] in chosen && chosen[i].workerId == w;
      assert after.workers[chosen[i].workerId] == Assign(chosen[i], db.next, HostText(third, i + 1), i);
    }
  }

  lemma FormedGroup(db: Db, after: Db, model: Token, chosen: seq<Worker>, third: nat, now: Time)
    requires Formed(db, after, model, chosen, third, now) && db.next !in db.clusters
    ensures NewGroups(db, after) == {(model, WorkerIds(chosen))}
  {
    hide FormedWorkers, SubnetText;
    FormedOrder(after.rings[db.next], chosen, third);
    hide FormedRing, RingOrder, UniqueSlots;
    assert forall c :: c in after.clusters && c !in db.clusters <==> c == db.next;
    forall g ensures g in NewGroups(db, after) <==> g == (model, WorkerIds(chosen)) {
      if g == (model, WorkerIds(chosen)) {
        assert db.next in after.clusters;
      }
    }
  }

  // ---- One round ----

  /** The groups that are due now, model by model. */
  ghost function Planned(cfg: Settings, db: Db, models: set<Token>, now: Time): set<Group>
    requires Constraints(db)
  {
    set m | m in models && Chosen(cfg, db, m, now) != [] :: (m, WorkerIds(Chosen(cfg, db, m, now)))
  }

  ghost function Grouped(groups: set<Group>): set<WorkerId> {
    set g, w | g in groups && w in g.1 :: w
  }

  lemma PlannedOne(cfg: Settings, db: Db, model: Token, now: Time)
    requires Constraints(db)
    ensures var chosen := WorkerIds(Chosen(cfg, db, model, now));
            Planned(cfg, db, {model}, now) == if chosen == [] then {} else {(model, chosen)}
  {
    hide Chosen, Constraints;
  }

  lemma GroupedOne(cfg: Settings, db: Db, model: Token, now: Time)
    requires Constraints(db)
    ensures Grouped(Planned(cfg, db, {model}, now)) == Elements(WorkerIds(Chosen(cfg, db, model, now)))
  {
    PlannedOne(cfg, db, model, now);
    hide Planned, Chosen, Constraints;
    var chosen := WorkerIds(Chosen(cfg, db, model, now));
    forall w ensures w in Grouped(Planned(cfg, db, {model}, now)) <==> w in chosen {
      if w in chosen { assert (model, chosen) in Planned(cfg, db, {model}, now); }
    }
  }

  /** One _form_cluster: it groups exactly the chosen workers, or nobody, and takes exactly the grouped
      ones off the waitlist. */
  lemma FormGroups(cfg: Settings, db: Db, model: Token, now: Time)
    requires Constraints(db) && Drawn(db)
    ensures var after := FormCluster(cfg, db, model, now).db;
            && Took(db, after, Grouped(NewGroups(db, after)), now)
            && (NewGroups(db, after) ==
                if FormCluster(cfg, db, model, now).ok then Planned(cfg, db, {model}, now) else {})
            && (forall w :: w in Grouped(NewGroups(db, after)) ==>
                  && w in db.workers && w in after.workers
                  && db.workers[w].model == model && after.workers[w].model == model)
  {
    hide Chosen, Took, NewGroups, Formed, NextSubnet, Constraints, FormOn, UsedSubnets, SubnetText, Planned, Grouped;
    var after := FormCluster(cfg, db, model, now).db;
    var chosen := Chosen(cfg, db, model, now);
    PlannedOne(cfg, db, model, now);
    if chosen != [] && NextSubnet(db).Some? {
      var third := FormClusterForms(cfg, db, model, now);
      ChosenSpec(cfg, db, model, now);
      FormedTook(db, after, model, cfg.models[model].gguf, chosen, third, now);
      FormedGroup(db, after, model, chosen, third, now);
      GroupedOne(cfg, db, model, now);
    } else {
      NothingGrouped(db, after, now);
    }
  }

  lemma NothingGrouped(db: Db, after: Db, now: Time)
    requires after == db || after == db.(next := db.next + 1)
    ensures Took(db, after, {}, now) && NewGroups(db, after) == {} && Grouped({}) == {}
  {
    hide Waits;
  }

  /** What forming the first model leaves for another one. */
  lemma OthersUndisturbed(cfg: Settings, db: Db, model: Token, other: Token, now: Time)
    requires Constraints(db) && Drawn(db) && other != model
    requires Constraints(FormCluster(cfg, db, model, now).db)
    ensures Chosen(cfg, FormCluster(cfg, db, model, now).db, other, now) == Chosen(cfg, db, other, now)
  {
    hide FormCluster, Chosen, Took, SameWaiting, Constraints, NewGroups, Grouped;
    var after := FormCluster(cfg, db, model, now).db;
    FormGroups(cfg, db, model, now);
    TookSameWaiting(db, after, Grouped(NewGroups(db, after)), other, now);
    ChosenSame(cfg, db, after, other, now);
  }

  lemma PlannedCons(cfg: Settings, db: Db, models: seq<Token>, now: Time)
    requires Constraints(db) && models != []
    ensures Planned(cfg, db, Elements(models), now) ==
            Planned(cfg, db, {models[0]}, now) + Planned(cfg, db, Elements(models[1..]), now)
  {
    hide Chosen, Constraints;
    assert models == [models[0]] + models[1..];
    assert Elements(models) == {models[0]} + Elements(models[1..]);
  }

  lemma PlannedRest(cfg: Settings, db: Db, models: seq<Token>, now: Time)
    requires Constraints(db) && Drawn(db) && Distinct(models) && models != []
    requires Constraints(FormCluster(cfg, db, models[0], now).db)
    ensures Planned(cfg, FormCluster(cfg, db, models[0], now).db, Elements(models[1..]), now) ==
            Planned(cfg, db, Elements(models[1..]), now)
  {
    hide FormCluster, Chosen, Constraints;
    var after := FormCluster(cfg, db, models[0], now).db;
    forall m | m in Elements(models[1..]) ensures Chosen(cfg, after, m, now) == Chosen(cfg, db, m, now) {
      var i :| 0 <= i < |models[1..]| && models[1..][i] == m;
      assert models[0] != models[i + 1];
      OthersUndisturbed(cfg, db, models[0], m, now);
    }
  }

  lemma NewGroupsChain(a: Db, b: Db, c: Db)
    requires Extends(a, b) && Extends(b, c)
    ensures NewGroups(a, c) == NewGroups(a, b) + NewGroups(b, c)
  {
    hide UniqueSlots, RingOrder;
    forall g ensures g in NewGroups(a, c) <==> g in NewGroups(a, b) || g in NewGroups(b, c) {
      if g in NewGroups(a, b) {
        var d :| d in b.clusters && d !in a.clusters && d in b.rings && UniqueSlots(b.rings[d]) &&
                 g == (b.clusters[d].model, RingOrder(b.rings[d]));
        assert d in c.clusters && c.clusters[d] == b.clusters[d] && c.rings[d] == b.rings[d];
      }
      if g in NewGroups(b, c) {
        var d :| d in c.clusters && d !in b.clusters && d in c.rings && UniqueSlots(c.rings[d]) &&
                 g == (c.clusters[d].model, RingOrder(c.rings[d]));
        assert d !in a.clusters;
      }
    }
  }

  lemma GroupedUnion(a: set<Group>, b: set<Group>)
    ensures Grouped(a + b) == Grouped(a) + Grouped(b)
  {
    forall w ensures w in Grouped(a + b) <==> w in Grouped(a) || w in Grouped(b) {
      if w in Grouped(a + b) {
        var g :| g in a + b && w in g.1;
      }
      if w in Grouped(a) {
        var g :| g in a && w in g.1;
        assert g in a + b;
      }
      if w in Grouped(b) {
        var g :| g in b && w in g.1;
        assert g in a + b;
      }
    }
  }

  /** A round takes exactly the members of the groups it forms from the waiting workers, and forms only
      groups that were due at its start; a round that returns forms all of them, whichever order it
      visits the models in. */
  lemma {:induction false} RoundGroups(cfg: Settings, db: Db, models: seq<Token>, now: Time)
    requires Constraints(db) && Drawn(db) && Distinct(models)
    ensures var after := CheckAndForm(cfg, db, models, now).db;
            && Took(db, after, Grouped(NewGroups(db, after)), now)
            && NewGroups(db, after) <= Planned(cfg, db, Elements(models), now)
            && (CheckAndForm(cfg, db, models, now).ok ==>
                  NewGroups(db, after) == Planned(cfg, db, Elements(models), now))
    decreases |models|
  {
    hide FormCluster, Chosen, Took, NewGroups, Planned, Grouped, Constraints, FormingEffect;
    if models == [] {
      NothingGrouped(db, db, now);
      NothingPlanned(cfg, db, now);
    } else {
      var mid := FormCluster(cfg, db, models[0], now).db;
      FormClusterConstraints(cfg, db, models[0], now);
      FormFacts(cfg, db, models[0], now);
      FormGroups(cfg, db, models[0], now);
      PlannedCons(cfg, db, models, now);
      if FormCluster(cfg, db, models[0], now).ok {
        assert Drawn(mid) && Extends(db, mid) by { EffectExtends(db, mid, now); }
        RestDistinct(models);
        RoundGroups(cfg, mid, models[1..], now);
        RoundFacts(cfg, mid, models[1..], now);
        PlannedRest(cfg, db, models, now);
        JoinGroups(db, mid, CheckAndForm(cfg, mid, models[1..], now).db, now);
      }
    }
  }

  lemma NothingPlanned(cfg: Settings, db: Db, now: Time)
    requires Constraints(db)
    ensures Planned(cfg, db, Elements([]), now) == {}
  {
  }

  lemma RestDistinct(models: seq<Token>)
    requires Distinct(models) && models != []
    ensures Distinct(models[1..])
  {
    forall i, j | 0 <= i < j < |models| - 1 ensures models[1..][i] != models[1..][j] {
      assert models[i + 1] != models[j + 1];
    }
  }

  lemma EffectExtends(db: Db, after: Db, now: Time)
    requires FormingEffect(db, after, now)
    ensures Drawn(after) && Extends(db, after)
  {
  }

  lemma JoinGroups(db: Db, mid: Db, after: Db, now: Time)
    requires Extends(db, mid) && FormingEffect(mid, after, now)
    requires Took(db, mid, Grouped(NewGroups(db, mid)), now)
    requires Took(mid, after, Grouped(NewGroups(mid, after)), now)
    ensures NewGroups(db, after) == NewGroups(db, mid) + NewGroups(mid, after)
    ensures Took(db, after, Grouped(NewGroups(db, after)), now)
  {
    EffectExtends(mid, after, now);
    hide Took, NewGroups, Grouped, FormingEffect, Extends;
    NewGroupsChain(db, mid, after);
    GroupedUnion(NewGroups(db, mid), NewGroups(mid, after));
    TookChain(db, mid, after, Grouped(NewGroups(db, mid)), Grouped(NewGroups(mid, after)), now);
  }

  // ---- Rounds until nothing forms ----

  /** No model has a cluster due. */
  ghost predicate Idle(cfg: Settings, db: Db, models: seq<Token>, now: Time)
    requires Constraints(db)
  {
    forall m :: m in models ==> Chosen(cfg, db, m, now) == []
  }

  /** A round with anything due leaves strictly fewer workers waiting. */
  lemma RoundShrinks(cfg: Settings, db: Db, models: seq<Token>, now: Time)
    requires Constraints(db) && Drawn(db) && Distinct(models)
    requires !Idle(cfg, db, models, now) && CheckAndForm(cfg, db, models, now).ok
    ensures |Waiting(CheckAndForm(cfg, db, models, now).db, now)| < |Waiting(db, now)|
  {
    hide CheckAndForm, Chosen, Took, NewGroups, Constraints, Waiting;
    RoundGroups(cfg, db, models, now);
    var groups := Planned(cfg, db, Elements(models), now);
    var m :| m in models && Chosen(cfg, db, m, now) != [];
    var ids := WorkerIds(Chosen(cfg, db, m, now));
    assert m in Elements(models) && (m, ids) in groups && ids[0] in ids;
    assert ids[0] in Grouped(groups);
    hide Planned, Grouped;
    TookShrinks(db, CheckAndForm(cfg, db, models, now).db, Grouped(groups), now);
  }

  /** check_and_form again and again at one clock reading, until nothing is due or a round fails. */
  ghost function Settle(cfg: Settings, db: Db, models: seq<Token>, now: Time): (e: Effect)
    requires Constraints(db) && Drawn(db) && Distinct(models)
    ensures Constraints(e.db)
    decreases |Waiting(db, now)|
  {
    hide CheckAndForm, Idle, Constraints, Waiting;
    if Idle(cfg, db, models, now) then Effect(db, true)
    else
      var round := CheckAndForm(cfg, db, models, now);
      RoundFacts(cfg, db, models, now);
      if round.ok then
        RoundShrinks(cfg, db, models, now);
        Settle(cfg, round.db, models, now)
      else round
  }

  // ---- How it ends ----

  lemma {:induction false} FailedRound(cfg: Settings, db: Db, models: seq<Token>, now: Time)
    requires Constraints(db) && Drawn(db) && !CheckAndForm(cfg, db, models, now).ok
    ensures NextSubnet(CheckAndForm(cfg, db, models, now).db).None?
    decreases |models|
  {
    hide FormCluster, Constraints, NextSubnet, FormingEffect;
    if models != [] {
      FormClusterConstraints(cfg, db, models[0], now);
      FormFacts(cfg, db, models[0], now);
      if FormCluster(cfg, db, models[0], now).ok {
        EffectExtends(db, FormCluster(cfg, db, models[0], now).db, now);
        FailedRound(cfg, FormCluster(cfg, db, models[0], now).db, models[1..], now);
      } else {
        FailedForm(cfg, db, models[0], now);
      }
    }
  }

  lemma FailedForm(cfg: Settings, db: Db, model: Token, now: Time)
    requires Constraints(db) && Drawn(db) && !FormCluster(cfg, db, model, now).ok
    ensures NextSubnet(FormCluster(cfg, db, model, now).db).None?
  {
    hide Chosen, NextSubnet, Formed, Constraints, UsedSubnets, SubnetText, FormOn;
    if NextSubnet(db).Some? {
      var third := FormClusterForms(cfg, db, model, now);
    } else {
      SubnetsUnaffected(db);
    }
  }

  lemma SubnetsUnaffected(db: Db)
    ensures NextSubnet(db.(next := db.next + 1)) == NextSubnet(db)
  {
    assert ActiveSubnets(db.(next := db.next + 1)) == ActiveSubnets(db);
    assert ReferencedSubnets(db.(next := db.next + 1)) == ReferencedSubnets(db);
  }

  lemma {:induction false} SettleExtends(cfg: Settings, db: Db, models: seq<Token>, now: Time)
    requires Constraints(db) && Drawn(db) && Distinct(models)
    ensures FormingEffect(db, Settle(cfg, db, models, now).db, now) && Extends(db, Settle(cfg, db, models, now).db)
    decreases |Waiting(db, now)|
  {
    hide CheckAndForm, Idle, Constraints, Waiting, FormingEffect, Extends;
    if Idle(cfg, db, models, now) {
      UnformedFacts(cfg, db, db, now);
    } else {
      var round := CheckAndForm(cfg, db, models, now);
      RoundFacts(cfg, db, models, now);
      EffectExtends(db, round.db, now);
      if round.ok {
        RoundShrinks(cfg, db, models, now);
        SettleExtends(cfg, round.db, models, now);
        ChainFacts(db, round.db, Settle(cfg, round.db, models, now).db, now);
      }
    }
    EffectExtends(db, Settle(cfg, db, models, now).db, now);
  }

  /** Repeated rounds come to an end: in a state with nothing left to form, or with all subnets in
      use. Either way exactly the members of the groups formed have left the waitlists, and every
      other worker row is as it was. */
  lemma {:induction false} SettleEnds(cfg: Settings, db: Db, models: seq<Token>, now: Time)
    requires Constraints(db) && Drawn(db) && Distinct(models)
    ensures var e := Settle(cfg, db, models, now);
            && Took(db, e.db, Grouped(NewGroups(db, e.db)), now)
            && (e.ok ==> Idle(cfg, e.db, models, now))
            && (!e.ok ==> NextSubnet(e.db).None?)
    decreases |Waiting(db, now)|
  {
    hide CheckAndForm, Idle, Took, Constraints, Waiting, NextSubnet, Planned, NewGroups, Grouped, FormingEffect,
         Extends;
    if Idle(cfg, db, models, now) {
      NothingGrouped(db, db, now);
    } else {
      var round := CheckAndForm(cfg, db, models, now);
      RoundFacts(cfg, db, models, now);
      RoundGroups(cfg, db, models, now);
      if round.ok {
        EffectExtends(db, round.db, now);
        RoundShrinks(cfg, db, models, now);
        SettleEnds(cfg, round.db, models, now);
        SettleExtends(cfg, round.db, models, now);
        JoinGroups(db, round.db, Settle(cfg, db, models, now).db, now);
      } else {
        FailedRound(cfg, db, models, now);
      }
    }
  }

  /** When rounds settle, every model's waitlist is empty or too small for its requirement. */
  lemma SettledWaitlists(cfg: Settings, db: Db, models: seq<Token>, now: Time, model: Token)
    requires Constraints(db) && Drawn(db) && Distinct(models) && Settle(cfg, db, models, now).ok
    requires forall w :: w in db.workers ==> db.workers[w].memory >= 0
    requires model in models && model in cfg.models
    ensures var ws := Waitlist(Rows(Settle(cfg, db, models, now).db), model, cfg.models[model].gguf, now);
            ws == [] || MemorySum(ws) < cfg.models[model].requiredMemory
  {
    hide Settle, Constraints, Waitlist, Took, Rows, PrefixSize, NewGroups, Grouped;
    SettleEnds(cfg, db, models, now);
    var after := Settle(cfg, db, models, now).db;
    var ws := Waitlist(Rows(after), model, cfg.models[model].gguf, now);
    assert Chosen(cfg, after, model, now) == [];
    WaitlistSpec(Rows(after), model, cfg.models[model].gguf, now);
    forall w | w in ws ensures w.memory >= 0 {
      WaitingUnchanged(db, after, Grouped(NewGroups(db, after)), w, model, cfg.models[model].gguf, now);
    }
    ShortestPrefix(ws, cfg.models[model].requiredMemory);
  }

  lemma WaitingUnchanged(db: Db, after: Db, ids: set<WorkerId>, w: Worker, model: Token, gguf: Hash, now: Time)
    requires Constraints(after) && Took(db, after, ids, now)
    requires w in Rows(after) && Eligible(w, model, gguf, now)
    ensures w.workerId in db.workers && db.workers[w.workerId] == w
  {
    RowsDistinct(after);
  }

  // ---- The order of the models does not matter ----

  /** The same workers waiting in the same scan order; everything else may differ. */
  ghost predicate SameQueue(a: Db, b: Db, now: Time) {
    && a.scan == b.scan && a.workers.Keys == b.workers.Keys
    && forall w :: w in a.workers && w in b.workers ==> SameRow(a.workers[w], b.workers[w], now)
  }

  lemma PlannedSame(cfg: Settings, a: Db, b: Db, models: set<Token>, now: Time)
    requires Constraints(a) && Constraints(b) && SameQueue(a, b, now)
    ensures Planned(cfg, a, models, now) == Planned(cfg, b, models, now)
    ensures forall m :: Chosen(cfg, a, m, now) == Chosen(cfg, b, m, now)
  {
    hide Chosen, Constraints;
    forall m: Token ensures Chosen(cfg, a, m, now) == Chosen(cfg, b, m, now) {
      ChosenSame(cfg, a, b, m, now);
    }
  }

  lemma TookSameQueue(a: Db, b: Db, laterA: Db, laterB: Db, ids: set<WorkerId>, now: Time)
    requires SameQueue(a, b, now) && Took(a, laterA, ids, now) && Took(b, laterB, ids, now)
    ensures SameQueue(laterA, laterB, now)
  {
    hide Waits;
  }

  lemma IdleSame(cfg: Settings, a: Db, b: Db, some: seq<Token>, other: seq<Token>, now: Time)
    requires Constraints(a) && Constraints(b) && SameQueue(a, b, now) && Elements(some) == Elements(other)
    ensures Idle(cfg, a, some, now) <==> Idle(cfg, b, other, now)
  {
    PlannedSame(cfg, a, b, {}, now);
    hide Chosen, Constraints, Planned;
    assert forall m :: m in some <==> m in Elements(some);
    assert forall m :: m in other <==> m in Elements(other);
  }

  lemma {:induction false} SettledSame(cfg: Settings, a: Db, b: Db, some: seq<Token>, other: seq<Token>, now: Time)
    requires Constraints(a) && Drawn(a) && Constraints(b) && Drawn(b) && SameQueue(a, b, now)
    requires Distinct(some) && Distinct(other) && Elements(some) == Elements(other)
    requires Settle(cfg, a, some, now).ok && Settle(cfg, b, other, now).ok
    ensures NewGroups(a, Settle(cfg, a, some, now).db) == NewGroups(b, Settle(cfg, b, other, now).db)
    decreases |Waiting(a, now)|
  {
    hide CheckAndForm, Idle, Took, Constraints, Waiting, Planned, NewGroups, Grouped, FormingEffect, SameQueue,
         Chosen, Extends;
    IdleSame(cfg, a, b, some, other, now);
    if Idle(cfg, a, some, now) {
      NothingGrouped(a, a, now);
      NothingGrouped(b, b, now);
    } else {
      var midA, midB := CheckAndForm(cfg, a, some, now).db, CheckAndForm(cfg, b, other, now).db;
      RoundFacts(cfg, a, some, now);
      RoundFacts(cfg, b, other, now);
      EffectExtends(a, midA, now);
      EffectExtends(b, midB, now);
      RoundShrinks(cfg, a, some, now);
      RoundGroups(cfg, a, some, now);
      RoundGroups(cfg, b, other, now);
      PlannedSame(cfg, a, b, Elements(some), now);
      TookSameQueue(a, b, midA, midB, Grouped(Planned(cfg, a, Elements(some), now)), now);
      SettledSame(cfg, midA, midB, some, other, now);
      SettleExtends(cfg, midA, some, now);
      SettleExtends(cfg, midB, other, now);
      NewGroupsChain(a, midA, Settle(cfg, a, some, now).db);
      NewGroupsChain(b, midB, Settle(cfg, b, other, now).db);
    }
  }

  /** When the rounds settle, which workers end up grouped together, for which model and in which ring
      order, does not depend on the order in which the rounds visit the models. */
  lemma OrderIrrelevant(cfg: Settings, db: Db, some: seq<Token>, other: seq<Token>, now: Time)
    requires Constraints(db) && Drawn(db)
    requires Distinct(some) && Distinct(other) && Elements(some) == Elements(other)
    requires Settle(cfg, db, some, now).ok && Settle(cfg, db, other, now).ok
    ensures NewGroups(db, Settle(cfg, db, some, now).db) == NewGroups(db, Settle(cfg, db, other, now).db)
  {
    hide Settle, NewGroups, Constraints;
    SettledSame(cfg, db, db, some, other, now);
  }

  // ---- Enough subnets ----

  /** Active clusters plus waiting workers: an upper bound on the clusters there can ever be. */
  ghost function Demand(db: Db, now: Time): nat {
    |ActiveClusters(db)| + |Waiting(db, now)|
  }

  /** In a reachable state _form_cluster fails exactly when somebody is chosen and 255 clusters are
      active; otherwise it adds one active cluster, or none if nobody is chosen. */
  lemma FormActive(cfg: Settings, db: Db, model: Token, now: Time)
    requires Inv(cfg, db) && Constraints(db) && Drawn(db)
    ensures var e := FormCluster(cfg, db, model, now);
            var due := Chosen(cfg, db, model, now) != [];
            && (e.ok <==> !due || |ActiveClusters(db)| < LAST_THIRD)
            && |ActiveClusters(e.db)| == |ActiveClusters(db)| + if due && e.ok then 1 else 0
  {
    hide Inv, Constraints, Chosen, NextSubnet, Formed, FormOn, UsedSubnets, SubnetText, ActiveClusters;
    var after := FormCluster(cfg, db, model, now).db;
    AllocationExact(cfg, db);
    if Chosen(cfg, db, model, now) != [] && NextSubnet(db).Some? {
      var third := FormClusterForms(cfg, db, model, now);
      OneMoreActive(db, after, model, Chosen(cfg, db, model, now), third, now);
    } else {
      SameActive(db, after);
    }
  }

  lemma SameActive(db: Db, after: Db)
    requires after.clusters == db.clusters
    ensures ActiveClusters(after) == ActiveClusters(db)
  {
  }

  lemma FormDemand(cfg: Settings, db: Db, model: Token, now: Time)
    requires Inv(cfg, db) && Constraints(db) && Drawn(db) && Demand(db, now) <= LAST_THIRD
    ensures FormCluster(cfg, db, model, now).ok && Demand(FormCluster(cfg, db, model, now).db, now) <= LAST_THIRD
  {
    hide Inv, Constraints, Chosen, FormCluster, Waiting, ActiveClusters, Took, NewGroups, Planned, Grouped;
    var chosen := Chosen(cfg, db, model, now);
    if chosen != [] {
      assert chosen[0].workerId in Waiting(db, now) by { ChosenWait(cfg, db, model, now); }
      assert |Waiting(db, now)| >= 1;
    }
    FormActive(cfg, db, model, now);
    FormGroups(cfg, db, model, now);
    GroupedOne(cfg, db, model, now);
    TookShrinks(db, FormCluster(cfg, db, model, now).db, Elements(WorkerIds(chosen)), now);
    if chosen != [] {
      assert chosen[0].workerId == WorkerIds(chosen)[0] && WorkerIds(chosen)[0] in Elements(WorkerIds(chosen));
      assert |Elements(WorkerIds(chosen))| >= 1;
    }
  }

  lemma ChosenWait(cfg: Settings, db: Db, model: Token, now: Time)
    requires Constraints(db) && Chosen(cfg, db, model, now) != []
    ensures Chosen(cfg, db, model, now)[0].workerId in Waiting(db, now)
  {
    hide Chosen;
    ChosenSpec(cfg, db, model, now);
    assert Chosen(cfg, db, model, now)[0] in Chosen(cfg, db, model, now);
  }

  lemma OneMoreActive(db: Db, after: Db, model: Token, chosen: seq<Worker>, third: nat, now: Time)
    requires Formed(db, after, model, chosen, third, now) && Drawn(db)
    ensures |ActiveClusters(after)| == |ActiveClusters(db)| + 1
  {
    hide FormedRing, FormedWorkers, SubnetText;
    assert ActiveClusters(after) == ActiveClusters(db) + {db.next};
    assert db.next !in ActiveClusters(db);
  }

  lemma {:induction false} RoundDemand(cfg: Settings, db: Db, models: seq<Token>, now: Time)
    requires Inv(cfg, db) && Constraints(db) && Drawn(db) && Demand(db, now) <= LAST_THIRD
    ensures CheckAndForm(cfg, db, models, now).ok && Demand(CheckAndForm(cfg, db, models, now).db, now) <= LAST_THIRD
    decreases |models|
  {
    hide Inv, Constraints, FormCluster, Demand, FormingEffect;
    if models != [] {
      FormClusterConstraints(cfg, db, models[0], now);
      FormDemand(cfg, db, models[0], now);
      FormFacts(cfg, db, models[0], now);
      EffectExtends(db, FormCluster(cfg, db, models[0], now).db, now);
      RoundDemand(cfg, FormCluster(cfg, db, models[0], now).db, models[1..], now);
    }
  }

  lemma PlannedCount(cfg: Settings, db: Db, models: seq<Token>, now: Time)
    requires Constraints(db) && Distinct(models) && models != []
    ensures |Planned(cfg, db, Elements(models), now)| ==
            |Planned(cfg, db, Elements(models[1..]), now)| + if Chosen(cfg, db, models[0], now) == [] then 0 else 1
  {
    hide Chosen, Constraints;
    PlannedCons(cfg, db, models, now);
    PlannedOne(cfg, db, models[0], now);
    var group := (models[0], WorkerIds(Chosen(cfg, db, models[0], now)));
    forall m | m in Elements(models[1..]) ensures m != models[0] {
      var i :| 0 <= i < |models[1..]| && models[1..][i] == m;
      assert models[0] != models[i + 1];
    }
    assert group !in Planned(cfg, db, Elements(models[1..]), now);
  }

  /** In a reachable state a round fails if and only if active clusters plus due groups exceed the 255
      subnets, and then it ends with all 255 in use. */
  lemma {:induction false} RoundFailsExactly(cfg: Settings, db: Db, models: seq<Token>, now: Time)
    requires Inv(cfg, db) && Constraints(db) && Drawn(db) && Distinct(models)
    ensures var e := CheckAndForm(cfg, db, models, now);
            && (!e.ok <==> |ActiveClusters(db)| + |Planned(cfg, db, Elements(models), now)| > LAST_THIRD)
            && |ActiveClusters(e.db)| ==
               if e.ok then |ActiveClusters(db)| + |Planned(cfg, db, Elements(models), now)| else LAST_THIRD
    decreases |models|
  {
    hide Inv, Constraints, Chosen, FormCluster, ActiveClusters, Planned, FormingEffect;
    AllocationExact(cfg, db);
    if models == [] {
      NothingPlanned(cfg, db, now);
    } else {
      var first := FormCluster(cfg, db, models[0], now);
      FormClusterConstraints(cfg, db, models[0], now);
      FormFacts(cfg, db, models[0], now);
      FormActive(cfg, db, models[0], now);
      PlannedCount(cfg, db, models, now);
      if first.ok {
        EffectExtends(db, first.db, now);
        RestDistinct(models);
        RoundFailsExactly(cfg, first.db, models[1..], now);
        PlannedRest(cfg, db, models, now);
      }
    }
  }

  /** From every reachable state in which active clusters and waiting workers together are no more
      than the subnets, repeated rounds settle. */
  lemma {:induction false} SettlesWithinPool(cfg: Settings, db: Db, models: seq<Token>, now: Time)
    requires Inv(cfg, db) && Constraints(db) && Drawn(db) && Distinct(models) && Demand(db, now) <= LAST_THIRD
    ensures Settle(cfg, db, models, now).ok && Inv(cfg, Settle(cfg, db, models, now).db)
    decreases |Waiting(db, now)|
  {
    hide Inv, Constraints, CheckAndForm, Demand, FormingEffect, Idle, Waiting;
    if !Idle(cfg, db, models, now) {
      var round := CheckAndForm(cfg, db, models, now);
      RoundDemand(cfg, db, models, now);
      RoundFacts(cfg, db, models, now);
      EffectExtends(db, round.db, now);
      RoundShrinks(cfg, db, models, now);
      SettlesWithinPool(cfg, round.db, models, now);
    }
  }

  // ---- Whether there are enough does not depend on the order either ----

  /** Two databases with the same queue and equally many active clusters settle together or not at all,
      and end with equally many. */
  lemma {:induction false} SettlingSame(cfg: Settings, a: Db, b: Db, some: seq<Token>, other: seq<Token>, now: Time)
    requires Inv(cfg, a) && Inv(cfg, b) && Constraints(a) && Drawn(a) && Constraints(b) && Drawn(b)
    requires SameQueue(a, b, now) && |ActiveClusters(a)| == |ActiveClusters(b)|
    requires Distinct(some) && Distinct(other) && Elements(some) == Elements(other)
    ensures Settle(cfg, a, some, now).ok == Settle(cfg, b, other, now).ok
    ensures |ActiveClusters(Settle(cfg, a, some, now).db)| == |ActiveClusters(Settle(cfg, b, other, now).db)|
    decreases |Waiting(a, now)|
  {
    hide Inv, CheckAndForm, Idle, Took, Constraints, Waiting, Planned, NewGroups, Grouped, FormingEffect, SameQueue,
         Chosen, ActiveClusters;
    IdleSame(cfg, a, b, some, other, now);
    if !Idle(cfg, a, some, now) {
      RoundFailsExactly(cfg, a, some, now);
      RoundFailsExactly(cfg, b, other, now);
      PlannedSame(cfg, a, b, Elements(some), now);
      if CheckAndForm(cfg, a, some, now).ok {
        var midA, midB := CheckAndForm(cfg, a, some, now).db, CheckAndForm(cfg, b, other, now).db;
        RoundFacts(cfg, a, some, now);
        RoundFacts(cfg, b, other, now);
        EffectExtends(a, midA, now);
        EffectExtends(b, midB, now);
        RoundShrinks(cfg, a, some, now);
        RoundGroups(cfg, a, some, now);
        RoundGroups(cfg, b, other, now);
        TookSameQueue(a, b, midA, midB, Grouped(Planned(cfg, a, Elements(some), now)), now);
        SettlingSame(cfg, midA, midB, some, other, now);
      }
    }
  }

  /** In a reachable state, whether the rounds settle or run out of subnets, and how many clusters they
      leave active, is the same in every order of the models; if they settle, so are the groups. */
  lemma OrderIrrelevantReachable(cfg: Settings, db: Db, some: seq<Token>, other: seq<Token>, now: Time)
    requires Inv(cfg, db) && Constraints(db) && Drawn(db)
    requires Distinct(some) && Distinct(other) && Elements(some) == Elements(other)
    ensures Settle(cfg, db, some, now).ok <==> Settle(cfg, db, other, now).ok
    ensures |ActiveClusters(Settle(cfg, db, some, now).db)| == |ActiveClusters(Settle(cfg, db, other, now).db)|
    ensures Settle(cfg, db, some, now).ok ==>
              NewGroups(db, Settle(cfg, db, some, now).db) == NewGroups(db, Settle(cfg, db, other, now).db)
  {
    hide Inv, Settle, NewGroups, Constraints, ActiveClusters;
    SettlingSame(cfg, db, db, some, other, now);
    if Settle(cfg, db, some, now).ok {
      OrderIrrelevant(cfg, db, some, other, now);
    }
  }

  /** So while active clusters and waiting workers fit the pool, the groups are the same in every order. */
  lemma OrderIrrelevantWithinPool(cfg: Settings, db: Db, some: seq<Token>, other: seq<Token>, now: Time)
    requires Inv(cfg, db) && Constraints(db) && Drawn(db) && Demand(db, now) <= LAST_THIRD
    requires Distinct(some) && Distinct(other) && Elements(some) == Elements(other)
    ensures NewGroups(db, Settle(cfg, db, some, now).db) == NewGroups(db, Settle(cfg, db, other, now).db)
  {
    hide Inv, Constraints, Settle, NewGroups, Demand;
    SettlesWithinPool(cfg, db, some, now);
    OrderIrrelevantReachable(cfg, db, some, other, now);
  }
}
