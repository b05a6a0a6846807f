// How runs end: every round drains, the allocation does not depend on the interleaving, and what
// the reported status and the FIFO's answers mean.
module RoundOutcome {
  import opened Sums
  import opened Directives
  import opened Round
  import opened RoundInvariant
  import opened RoundSteps
  import opened RoundTheorems
  import FifoNodes

  // ---- Draining ----

  // The weight of a queued callback exceeds the weights of all that serving it can queue.
  function SchedBaseWeight(cfg: Config): nat { 4 * |cfg.scheds| + 3 }

  function PriSchedWeight(cfg: Config): nat { SchedBaseWeight(cfg) + 1 }

  function MetaScheduleWeight(cfg: Config): nat { |cfg.metas| * PriSchedWeight(cfg) + 2 }

  // The number of callbacks that one request can lead to is at most this.
  function InitWeight(cfg: Config): nat { MetaScheduleWeight(cfg) + 1 }

  function ReqWeight(cfg: Config): Req -> nat {
    (q: Req) => match q.ev
      case Init => InitWeight(cfg)
      case MetaSchedule => MetaScheduleWeight(cfg)
      case Idle => 0
  }

  function CaddyWeight(cfg: Config): Caddy -> nat {
    (cd: Caddy) => match cd.ev
      case PriSched => PriSchedWeight(cfg)
      case SchedBase => SchedBaseWeight(cfg)
      case PriChoose => 2
      case MetaBase => 1
      case Idle => 0
  }

  function SchedWeight(): SchedCaddy -> nat {
    (sc: SchedCaddy) => match sc.ev
      case Run => 4
      case Respond => 3
      case Idle => 0
  }

  function Measure(cfg: Config, st: State): nat {
    Sum(st.reqs, ReqWeight(cfg)) + Sum(st.caddies, CaddyWeight(cfg)) + Sum(st.scheds, SchedWeight())
  }

  lemma ArriveAdds(cfg: Config, st: State, infos: seq<Info>, hasCallback: bool)
    ensures Measure(cfg, DoArrive(st, infos, hasCallback)) == Measure(cfg, st) + InitWeight(cfg)
  {
    var st' := DoArrive(st, infos, hasCallback);
    SumAppend(st.reqs, st'.reqs[|st.reqs|], ReqWeight(cfg));
  }

  lemma RequestInitFalls(cfg: Config, st: State, r: nat, slot: nat)
    requires r < |st.reqs| && st.reqs[r].ev.Init? && FreeSlot(st.table, slot)
    ensures Measure(cfg, DoRequestInit(st, r, slot)) < Measure(cfg, st)
  {
    var st' := DoRequestInit(st, r, slot);
    assert st'.reqs == st.reqs[r := st'.reqs[r]];
    SumUpdate(st.reqs, r, st'.reqs[r], ReqWeight(cfg));
  }

  lemma MetaBaseScheduleFalls(cfg: Config, st: State, r: nat, accepts: seq<bool>)
    requires r < |st.reqs| && st.reqs[r].ev.MetaSchedule? && |accepts| == |cfg.metas|
    ensures Measure(cfg, DoMetaBaseSchedule(cfg, st, r, accepts)) < Measure(cfg, st)
  {
    var st' := DoMetaBaseSchedule(cfg, st, r, accepts);
    assert st'.reqs == st.reqs[r := st'.reqs[r]];
    SumUpdate(st.reqs, r, st'.reqs[r], ReqWeight(cfg));
    var added := NewCaddies(cfg, accepts, |st.metas|);
    NewCaddiesAdded(cfg, st, r, accepts);
    NewCaddiesWeight(cfg, accepts, |st.metas|);
    SumConcat(st.caddies, added, CaddyWeight(cfg));
  }

  lemma NewCaddiesWeight(cfg: Config, accepts: seq<bool>, m: nat)
    requires |accepts| == |cfg.metas|
    ensures Sum(NewCaddies(cfg, accepts, m), CaddyWeight(cfg)) <= |cfg.metas| * PriSchedWeight(cfg) + 1
  {
    var f := FanMetas(cfg.metas, accepts, m, |cfg.metas|);
    FanMetasShape(cfg, accepts, m, |cfg.metas|);
    SumAtMost(f.created, CaddyWeight(cfg), PriSchedWeight(cfg), |cfg.metas|);
    if f.refused == |cfg.metas| {
      SumAppend(f.created, Caddy(MetaBase, true, m, false, CaddyEvent.Idle, None, []), CaddyWeight(cfg));
    }
  }

  lemma PriScheduleFalls(cfg: Config, st: State, c: nat)
    requires c < |st.caddies| && st.caddies[c].ev.PriSched?
    ensures Measure(cfg, DoPriSchedule(st, c)) < Measure(cfg, st)
  {
    SumUpdate(st.caddies, c, DoPriSchedule(st, c).caddies[c], CaddyWeight(cfg));
  }

  lemma SchedBaseScheduleFalls(cfg: Config, st: State, c: nat, accepts: seq<bool>)
    requires WellIndexed(st) && Enabled(cfg, st, SchedBaseSchedule(c, accepts)) && CaddyShape(st.caddies[c])
    ensures Measure(cfg, DoSchedBaseSchedule(cfg, st, c, accepts)) < Measure(cfg, st)
  {
    var st' := DoSchedBaseSchedule(cfg, st, c, accepts);
    var r := st.metas[st.caddies[c].mt].req;
    FanSchedsWeight(cfg, accepts, c, r);
    SumConcat(st.scheds, FanScheds(cfg.scheds, accepts, c, r, |cfg.scheds|).created, SchedWeight());
    assert st'.caddies == st.caddies[c := st'.caddies[c]];
    SumUpdate(st.caddies, c, st'.caddies[c], CaddyWeight(cfg));
    assert st'.reqs == st.reqs[r := st'.reqs[r]];
    SumUpdate(st.reqs, r, st'.reqs[r], ReqWeight(cfg));
  }

  lemma FanSchedsWeight(cfg: Config, accepts: seq<bool>, c: nat, r: nat)
    requires |accepts| == |cfg.scheds|
    ensures Sum(FanScheds(cfg.scheds, accepts, c, r, |cfg.scheds|).created, SchedWeight()) <= 4 * |cfg.scheds|
  {
    var f := FanScheds(cfg.scheds, accepts, c, r, |cfg.scheds|);
    FanSchedsShape(cfg.scheds, accepts, c, r, |cfg.scheds|);
    SumConstant(f.created, SchedWeight(), 4);
  }

  lemma RunSchedulerFalls(cfg: Config, st: State, l: Label)
    requires WellIndexed(st) && l.RunScheduler? && Enabled(cfg, st, l)
    ensures Measure(cfg, DoRunScheduler(st, l.s, l.pool, l.avail, l.answer)) < Measure(cfg, st)
  {
    var st' := DoRunScheduler(st, l.s, l.pool, l.avail, l.answer);
    var r := st.scheds[l.s].req;
    assert st'.scheds == st.scheds[l.s := st'.scheds[l.s]];
    SumUpdate(st.scheds, l.s, st'.scheds[l.s], SchedWeight());
    assert st'.reqs == st.reqs[r := st'.reqs[r]];
    SumUpdate(st.reqs, r, st'.reqs[r], ReqWeight(cfg));
  }

  lemma SchedBaseCallbackFalls(cfg: Config, st: State, s: nat)
    requires Inv(cfg, st) && Enabled(cfg, st, SchedBaseCallback(s))
    ensures Measure(cfg, DoSchedBaseCallback(st, s)) < Measure(cfg, st)
  {
    var st' := DoSchedBaseCallback(st, s);
    var c := st.scheds[s].trk;
    PendingSchedIsAwaited(cfg, st, s);
    assert CaddyShape(st.caddies[c]);
    SumUpdate(st.scheds, s, st'.scheds[s], SchedWeight());
    SumUpdate(st.caddies, c, st'.caddies[c], CaddyWeight(cfg));
  }

  lemma PriCallbackFalls(cfg: Config, st: State, c: nat)
    requires WellIndexed(st) && Enabled(cfg, st, PriCallback(c))
    ensures Measure(cfg, DoPriCallback(st, c)) < Measure(cfg, st)
  {
    var st' := DoPriCallback(st, c);
    var r := st.metas[st.caddies[c].mt].req;
    SumUpdate(st.caddies, c, st'.caddies[c], CaddyWeight(cfg));
    assert st'.reqs == st.reqs[r := st'.reqs[r]];
    SumUpdate(st.reqs, r, st'.reqs[r], ReqWeight(cfg));
  }

  lemma MetaBaseCallbackFalls(cfg: Config, st: State, c: nat)
    requires WellIndexed(st) && Enabled(cfg, st, MetaBaseCallback(c))
    ensures Measure(cfg, DoMetaBaseCallback(st, c)) < Measure(cfg, st)
  {
    var st' := DoMetaBaseCallback(st, c);
    var r := st.metas[st.caddies[c].mt].req;
    SumUpdate(st.caddies, c, st'.caddies[c], CaddyWeight(cfg));
    assert st'.reqs == st.reqs[r := st'.reqs[r]];
    SumUpdate(st.reqs, r, st'.reqs[r], ReqWeight(cfg));
  }

  // Every handler, whatever it is and whatever the modules answer, lowers the measure.
  lemma HandlersLowerMeasure(cfg: Config, st: State, l: Label)
    requires Inv(cfg, st) && Enabled(cfg, st, l) && !l.Arrive?
    ensures Measure(cfg, Apply(cfg, st, l)) < Measure(cfg, st)
  {
    match l
    case RequestInit(r, slot) => RequestInitFalls(cfg, st, r, slot);
    case MetaBaseSchedule(r, accepts) => MetaBaseScheduleFalls(cfg, st, r, accepts);
    case PriSchedule(c) => PriScheduleFalls(cfg, st, c);
    case SchedBaseSchedule(c, accepts) =>
      assert CaddyShape(st.caddies[c]);
      SchedBaseScheduleFalls(cfg, st, c, accepts);
    case RunScheduler(_, _, _, _) => RunSchedulerFalls(cfg, st, l);
    case SchedBaseCallback(s) => SchedBaseCallbackFalls(cfg, st, s);
    case PriCallback(c) => PriCallbackFalls(cfg, st, c);
    case MetaBaseCallback(c) => MetaBaseCallbackFalls(cfg, st, c);
  }

  function Arrivals(): Label -> nat { (l: Label) => Bit(l.Arrive?) }

  lemma StepMeasure(cfg: Config, st: State, l: Label)
    requires Inv(cfg, st) && Enabled(cfg, st, l)
    ensures Measure(cfg, Apply(cfg, st, l)) + Bit(!l.Arrive?)
         <= Measure(cfg, st) + if l.Arrive? then InitWeight(cfg) else 0
  {
    if l.Arrive? {
      ArriveAdds(cfg, st, l.infos, l.hasCallback);
    } else {
      HandlersLowerMeasure(cfg, st, l);
    }
  }

  // The measure at the end of a run, 0 when the labels do not form one.
  ghost function FinalMeasure(cfg: Config, ls: seq<Label>): nat {
    if Exec(cfg, ls).Some? then Measure(cfg, Exec(cfg, ls).value) else 0
  }

  lemma LastStepMeasure(cfg: Config, ls: seq<Label>)
    requires ls != [] && Exec(cfg, ls).Some?
    ensures var n := |ls| - 1;
      && Exec(cfg, ls[..n]).Some?
      && FinalMeasure(cfg, ls) + Bit(!ls[n].Arrive?)
         <= FinalMeasure(cfg, ls[..n]) + if ls[n].Arrive? then InitWeight(cfg) else 0
  {
    var n := |ls| - 1;
    ReachableInv(cfg, ls[..n]);
    StepMeasure(cfg, Exec(cfg, ls[..n]).value, ls[n]);
  }

  // What the arrivals allow for, at k callbacks each.
  function Budget(k: nat): Label -> nat { (l: Label) => if l.Arrive? then k else 0 }

  lemma {:induction false} BudgetIsProduct(ls: seq<Label>, k: nat)
    ensures Sum(ls, Budget(k)) == Sum(ls, Arrivals()) * k
  {
    if ls != [] {
      var n := |ls| - 1;
      BudgetIsProduct(ls[..n], k);
      assert Budget(k)(ls[n]) == Bit(ls[n].Arrive?) * k;
      Distribute(Sum(ls[..n], Arrivals()), Bit(ls[n].Arrive?), k);
    }
  }

  lemma Distribute(a: nat, b: nat, k: nat)
    ensures (a + b) * k == a * k + b * k
  {
  }

  lemma {:induction false} BudgetKept(cfg: Config, ls: seq<Label>)
    requires Exec(cfg, ls).Some?
    ensures |ls| - Sum(ls, Arrivals()) + FinalMeasure(cfg, ls) <= Sum(ls, Budget(InitWeight(cfg)))
  {
    if ls != [] {
      LastStepMeasure(cfg, ls);
      BudgetKept(cfg, ls[..|ls| - 1]);
    }
  }

  // No run serves more than InitWeight callbacks per request: every round drains.
  lemma {:induction false} RoundsDrain(cfg: Config, ls: seq<Label>)
    requires Exec(cfg, ls).Some?
    ensures |ls| - Sum(ls, Arrivals()) + FinalMeasure(cfg, ls) <= Sum(ls, Arrivals()) * InitWeight(cfg)
  {
    BudgetKept(cfg, ls);
    BudgetIsProduct(ls, InitWeight(cfg));
  }

  // While anything is queued some handler can be served.
  lemma UndrainedCanRun(cfg: Config, st: State)
    requires !Drained(st)
    ensures exists l: Label :: !l.Arrive? && Enabled(cfg, st, l)
  {
    var yes := seq(|cfg.metas|, i => true);
    var all := seq(|cfg.scheds|, i => true);
    if r :| 0 <= r < |st.reqs| && !st.reqs[r].ev.Idle? {
      assert Enabled(cfg, st, RequestInit(r, |st.table|)) || Enabled(cfg, st, MetaBaseSchedule(r, yes));
    } else if c :| 0 <= c < |st.caddies| && !st.caddies[c].ev.Idle? {
      assert Enabled(cfg, st, PriSchedule(c)) || Enabled(cfg, st, SchedBaseSchedule(c, all))
          || Enabled(cfg, st, PriCallback(c)) || Enabled(cfg, st, MetaBaseCallback(c));
    } else {
      var s :| 0 <= s < |st.scheds| && !st.scheds[s].ev.Idle?;
      assert Enabled(cfg, st, RunScheduler(s, [], 0, None)) || Enabled(cfg, st, SchedBaseCallback(s));
    }
  }

  // ---- The allocation chosen ----

  // The chooser returns an allocation of least pri, and nothing only when there is none.
  lemma {:induction false} BestIsLeast(allocs: seq<Alloc>)
    ensures Best(allocs).None? <==> allocs == []
    ensures Best(allocs).Some? ==>
      Best(allocs).value in allocs && forall a :: a in allocs ==> Best(allocs).value.pri <= a.pri
  {
    if allocs != [] {
      var n := |allocs| - 1;
      BestIsLeast(allocs[..n]);
      assert allocs == allocs[..n] + [allocs[n]];
    }
  }

  // Scheduler number k in priority order answered caddy c with a.
  ghost predicate Answered(st: State, c: nat, k: nat, a: Alloc) {
    exists s :: 0 <= s < |st.scheds| && AnsweredWith(st.scheds[s], c, a) && st.scheds[s].mod == k
  }

  lemma {:induction false} PresentMonotone(mods: seq<SchedModule>, i: nat, j: nat)
    requires i < j <= |mods| && !mods[i].Absent?
    ensures Sum(mods[..i], PresentModule()) < Sum(mods[..j], PresentModule())
  {
    SumTake(mods, j - 1, PresentModule());
    if i < j - 1 {
      PresentMonotone(mods, i, j - 1);
    }
  }

  // The order of answers by pri is the order of the modules.
  lemma PriFollowsModule(cfg: Config, st: State, s: nat, t: nat)
    requires Inv(cfg, st) && s < |st.scheds| && t < |st.scheds|
    requires st.scheds[s].order <= st.scheds[t].order
    ensures st.scheds[s].mod <= st.scheds[t].mod
  {
    if st.scheds[t].mod < st.scheds[s].mod {
      PresentMonotone(cfg.scheds, st.scheds[t].mod, st.scheds[s].mod);
    }
  }

  // What a caddy chooses is the answer of the first module that answered with an allocation.
  lemma BestIsFirstAnswer(cfg: Config, st: State, c: nat)
    requires Inv(cfg, st) && c < |st.caddies|
    ensures var b := Best(st.caddies[c].allocations);
      && (b.None? ==> forall k, a :: !Answered(st, c, k, a))
      && (b.Some? ==> exists k: nat :: Answered(st, c, k, b.value) && forall j, a :: Answered(st, c, j, a) ==> k <= j)
  {
    var allocs := st.caddies[c].allocations;
    BestIsLeast(allocs);
    if Best(allocs).Some? {
      var b := Best(allocs).value;
      var s :| 0 <= s < |st.scheds| && AnsweredWith(st.scheds[s], c, b);
      var k := st.scheds[s].mod;
      assert Answered(st, c, k, b);
      forall j, a | Answered(st, c, j, a)
        ensures k <= j
      {
        var t :| 0 <= t < |st.scheds| && AnsweredWith(st.scheds[t], c, a) && st.scheds[t].mod == j;
        assert a in allocs;
        PriFollowsModule(cfg, st, s, t);
      }
    }
  }

  // The caddy that assigned on behalf of request r, once the request is completed.
  lemma CompletedHasChooser(cfg: Config, st: State, r: nat) returns (c: nat)
    requires Inv(cfg, st) && r < |st.reqs| && Completed(st.reqs, st.metas, r)
    ensures c < |st.caddies| && Chosen(st.caddies[c]) && st.metas[st.caddies[c].mt].req == r
    ensures st.reqs[r].allocation == Best(st.caddies[c].allocations)
  {
    assert ReqLawAt(st.reqs, st.metas, st.fifo, st.table, r);
    var m := SumWitness(st.metas, MetaOf(r));
    if st.metas[m].live {
      SumAtLeast(st.metas, m, LiveOf(r));
      assert false;
    }
    assert MetaLawAt(cfg, st.metas, st.caddies, m);
    c := SumWitness(st.caddies, FlagOf(m));
    if st.caddies[c].live {
      LiveCaddyHasLiveMeta(cfg, st, c);
      assert false;
    }
  }

  // In every run, a completed request has been given the allocation of the highest-priority
  // scheduler that produced one, and nothing exactly when none did.
  lemma {:induction false} BestSchedulerWins(cfg: Config, ls: seq<Label>, r: nat)
    requires Exec(cfg, ls).Some? && r < |Exec(cfg, ls).value.reqs|
    requires Completed(Exec(cfg, ls).value.reqs, Exec(cfg, ls).value.metas, r)
    ensures var st := Exec(cfg, ls).value;
      exists c: nat :: c < |st.caddies| && Chosen(st.caddies[c]) && st.caddies[c].mt < |st.metas|
        && st.metas[st.caddies[c].mt].req == r
        && (st.reqs[r].allocation.None? ==> forall k, a :: !Answered(st, c, k, a))
        && (st.reqs[r].allocation.Some? ==>
              exists k: nat :: Answered(st, c, k, st.reqs[r].allocation.value)
                            && forall j, a :: Answered(st, c, j, a) ==> k <= j)
  {
    ReachableInv(cfg, ls);
    var st := Exec(cfg, ls).value;
    var c := CompletedHasChooser(cfg, st, r);
    BestIsFirstAnswer(cfg, st, c);
  }

  // A module answers a caddy at most once.
  lemma OneAnswerPerModule(cfg: Config, st: State, c: nat, k: nat, a: Alloc, b: Alloc)
    requires Inv(cfg, st) && Answered(st, c, k, a) && Answered(st, c, k, b)
    ensures a == b
  {
    var s :| 0 <= s < |st.scheds| && AnsweredWith(st.scheds[s], c, a) && st.scheds[s].mod == k;
    var t :| 0 <= t < |st.scheds| && AnsweredWith(st.scheds[t], c, b) && st.scheds[t].mod == k;
    if s < t {
      assert false;
    } else if t < s {
      assert false;
    }
  }

  lemma SameAnswersSameChoice(cfg: Config, st: State, st': State, c: nat, c': nat)
    requires Inv(cfg, st) && Inv(cfg, st') && c < |st.caddies| && c' < |st'.caddies|
    requires forall k, a :: Answered(st, c, k, a) <==> Answered(st', c', k, a)
    ensures Best(st.caddies[c].allocations) == Best(st'.caddies[c'].allocations)
  {
    BestIsFirstAnswer(cfg, st, c);
    BestIsFirstAnswer(cfg, st', c');
    var b, b' := Best(st.caddies[c].allocations), Best(st'.caddies[c'].allocations);
    if b.Some? && b'.Some? {
      var k: nat :| Answered(st, c, k, b.value) && forall j, a :: Answered(st, c, j, a) ==> k <= j;
      var k': nat :| Answered(st', c', k', b'.value) && forall j, a :: Answered(st', c', j, a) ==> k' <= j;
      assert Answered(st', c', k, b.value) && Answered(st, c, k', b'.value);
      OneAnswerPerModule(cfg, st', c', k, b.value, b'.value);
    }
  }

  // Two runs, however they interleave, in which the schedulers give the same answers end with the
  // same allocation.
  lemma {:induction false} InterleavingDoesNotMatter(cfg: Config, ls: seq<Label>, ls': seq<Label>, c: nat, c': nat)
    requires Exec(cfg, ls).Some? && Exec(cfg, ls').Some?
    requires c < |Exec(cfg, ls).value.caddies| && Chosen(Exec(cfg, ls).value.caddies[c])
    requires c' < |Exec(cfg, ls').value.caddies| && Chosen(Exec(cfg, ls').value.caddies[c'])
    requires forall k, a :: Answered(Exec(cfg, ls).value, c, k, a) <==> Answered(Exec(cfg, ls').value, c', k, a)
    requires WellIndexed(Exec(cfg, ls).value) && WellIndexed(Exec(cfg, ls').value)
    ensures var st, st' := Exec(cfg, ls).value, Exec(cfg, ls').value;
      st.reqs[st.metas[st.caddies[c].mt].req].allocation == st'.reqs[st'.metas[st'.caddies[c'].mt].req].allocation
  {
    ReachableInv(cfg, ls);
    ReachableInv(cfg, ls');
    SameAnswersSameChoice(cfg, Exec(cfg, ls).value, Exec(cfg, ls').value, c, c');
  }

  // ---- Status ----

  // A request is never reported successful without an allocation.
  lemma {:induction false} SuccessHasAllocation(cfg: Config, ls: seq<Label>, r: nat)
    requires Exec(cfg, ls).Some? && r < |Exec(cfg, ls).value.reqs|
    requires Exec(cfg, ls).value.reqs[r].status.Success?
    ensures Exec(cfg, ls).value.reqs[r].allocation.Some?
  {
    ReachableInv(cfg, ls);
  }

  // With one active meta module the two say the same, at every moment.
  lemma {:induction false} SingleMetaStatus(cfg: Config, ls: seq<Label>, r: nat)
    requires |cfg.metas| == 1
    requires Exec(cfg, ls).Some? && r < |Exec(cfg, ls).value.reqs|
    ensures Exec(cfg, ls).value.reqs[r].status.Success? <==> Exec(cfg, ls).value.reqs[r].allocation.Some?
  {
    ReachableInv(cfg, ls);
  }

  // Serving l finds that every scheduler refuses request r, for some meta module.
  ghost predicate Spoils(cfg: Config, st: State, l: Label, r: nat) {
    && l.SchedBaseSchedule? && WellIndexed(st) && Enabled(cfg, st, l)
    && st.metas[st.caddies[l.c].mt].req == r
    && FanScheds(cfg.scheds, l.accepts, l.c, r, |cfg.scheds|).refused == |cfg.scheds|
  }

  // The two handlers that may write a status or an allocation otherwise do not serve r.
  lemma StatusStep(cfg: Config, st: State, l: Label, r: nat)
    requires WellIndexed(st) && Enabled(cfg, st, l) && r < |st.reqs|
    requires l.MetaBaseSchedule? ==> l.r != r
    requires l.PriCallback? && st.caddies[l.c].flag ==> st.metas[st.caddies[l.c].mt].req != r
    ensures r < |Apply(cfg, st, l).reqs| && Apply(cfg, st, l).reqs[r].allocation == st.reqs[r].allocation
    ensures Apply(cfg, st, l).reqs[r].status == if Spoils(cfg, st, l, r) then NotAvailable else st.reqs[r].status
  {
  }

  lemma SpoilsStep(cfg: Config, st: State, l: Label, r: nat)
    requires Inv(cfg, st) && Enabled(cfg, st, l) && r < |st.reqs| && st.reqs[r].allocation.Some?
    ensures r < |Apply(cfg, st, l).reqs| && Apply(cfg, st, l).reqs[r].allocation.Some?
    ensures Apply(cfg, st, l).reqs[r].status.Success? <==> st.reqs[r].status.Success? && !Spoils(cfg, st, l, r)
  {
    if l.MetaBaseSchedule? {
      assert ReqLawAt(st.reqs, st.metas, st.fifo, st.table, l.r);
      NoAllocationBeforeMeta(st, l.r);
    } else if l.PriCallback? && st.caddies[l.c].flag {
      NothingChosenYet(cfg, st, l.c);
    }
    StatusStep(cfg, st, l, r);
  }

  // Label k of more, served after ls, spoils request r.
  ghost predicate SpoilsAt(cfg: Config, ls: seq<Label>, more: seq<Label>, k: nat, r: nat)
    requires k < |more|
  {
    var before := Exec(cfg, ls + more[..k]);
    before.Some? && Spoils(cfg, before.value, more[k], r)
  }

  ghost predicate SpoiledDuring(cfg: Config, ls: seq<Label>, more: seq<Label>, r: nat) {
    exists k: nat :: k < |more| && SpoilsAt(cfg, ls, more, k, r)
  }

  // The last label of a run takes it from st to st'.
  lemma LastStepSpoils(cfg: Config, ls: seq<Label>, l: Label, st: State, st': State, r: nat)
    requires Exec(cfg, ls) == Some(st) && Exec(cfg, ls + [l]) == Some(st')
    requires r < |st.reqs| && st.reqs[r].allocation.Some?
    ensures r < |st'.reqs| && st'.reqs[r].allocation.Some?
    ensures st'.reqs[r].status.Success? <==> st.reqs[r].status.Success? && !Spoils(cfg, st, l, r)
  {
    assert (ls + [l])[..|ls|] == ls;
    ReachableInv(cfg, ls);
    SpoilsStep(cfg, st, l, r);
  }

  // Once a request has been assigned an allocation, it stays successful exactly as long as no
  // other meta module of its round finds every scheduler refusing it.
  lemma {:induction false} StatusAfterAssignment(cfg: Config, ls: seq<Label>, more: seq<Label>, r: nat)
    requires Exec(cfg, ls).Some? && Exec(cfg, ls + more).Some?
    requires r < |Exec(cfg, ls).value.reqs|
    requires Exec(cfg, ls).value.reqs[r].allocation.Some? && Exec(cfg, ls).value.reqs[r].status.Success?
    ensures r < |Exec(cfg, ls + more).value.reqs| && Exec(cfg, ls + more).value.reqs[r].allocation.Some?
    ensures Exec(cfg, ls + more).value.reqs[r].status.Success? <==> !SpoiledDuring(cfg, ls, more, r)
  {
    if more == [] {
      assert ls + more == ls;
    } else {
      var n := |more| - 1;
      var before := ls + more[..n];
      assert ls + more == before + [more[n]];
      PrefixRuns(cfg, before, [more[n]]);
      StatusAfterAssignment(cfg, ls, more[..n], r);
      LastStepSpoils(cfg, before, more[n], Exec(cfg, before).value, Exec(cfg, ls + more).value, r);
      SpoiledAppend(cfg, ls, more, r);
    }
  }

  lemma SameSpoiling(cfg: Config, ls: seq<Label>, more: seq<Label>, n: nat, k: nat, r: nat)
    requires k < n <= |more|
    ensures SpoilsAt(cfg, ls, more, k, r) <==> SpoilsAt(cfg, ls, more[..n], k, r)
  {
    assert more[..n][..k] == more[..k];
  }

  lemma SpoiledAppend(cfg: Config, ls: seq<Label>, more: seq<Label>, r: nat)
    requires more != []
    ensures SpoiledDuring(cfg, ls, more, r) <==>
      SpoiledDuring(cfg, ls, more[..|more| - 1], r) || SpoilsAt(cfg, ls, more, |more| - 1, r)
  {
    var n := |more| - 1;
    forall k: nat | k < n
      ensures SpoilsAt(cfg, ls, more, k, r) <==> SpoilsAt(cfg, ls, more[..n], k, r)
    {
      SameSpoiling(cfg, ls, more, n, k, r);
    }
  }

  // At most one meta module of a round is told to assign, and it is the first to take the
  // request.
  lemma {:induction false} FirstTakerAssigns(cfg: Config, ls: seq<Label>, r: nat, accepts: seq<bool>)
    requires Exec(cfg, ls).Some? && Enabled(cfg, Exec(cfg, ls).value, MetaBaseSchedule(r, accepts))
    ensures var st := Exec(cfg, ls).value;
      var st' := DoMetaBaseSchedule(cfg, st, r, accepts);
      && |st.caddies| <= |st'.caddies|
      && (forall c :: |st.caddies| <= c < |st'.caddies| ==>
            (st'.caddies[c].flag <==> c == |st.caddies| && SomeoneTakes(cfg, MetaBaseSchedule(r, accepts), r)))
  {
    var st := Exec(cfg, ls).value;
    NewCaddiesAdded(cfg, st, r, accepts);
    FanMetasShape(cfg, accepts, |st.metas|, |cfg.metas|);
    FanMetasTakes(cfg.metas, accepts, |st.metas|, |cfg.metas|);
  }

  // ---- The FIFO ----

  lemma FifoOnlyGrows(cfg: Config, st: State, l: Label)
    requires WellIndexed(st) && Enabled(cfg, st, l)
    ensures Apply(cfg, st, l).fifo ==
      st.fifo + if l.RunScheduler? && st.scheds[l.s].fifo then [st.scheds[l.s].req] else []
  {
  }

  // The FIFO's list keeps its entries in the order they arrived and never loses its head.
  lemma {:induction false} FifoKeepsArrivalOrder(cfg: Config, ls: seq<Label>, more: seq<Label>)
    requires Exec(cfg, ls).Some? && Exec(cfg, ls + more).Some?
    ensures Exec(cfg, ls).value.fifo <= Exec(cfg, ls + more).value.fifo
  {
    if more == [] {
      assert ls + more == ls;
    } else {
      var n := |more| - 1;
      assert (ls + more)[..|ls + more| - 1] == ls + more[..n];
      FifoKeepsArrivalOrder(cfg, ls, more[..n]);
      FifoOnlyGrows(cfg, Exec(cfg, ls + more[..n]).value, more[n]);
    }
  }

  // The requests that reach the FIFO in a run, in the order in which it serves them.
  ghost function FifoArrivals(cfg: Config, ls: seq<Label>): seq<nat>
    requires Exec(cfg, ls).Some?
  {
    if ls == [] then []
    else
      var n := |ls| - 1;
      var st := Exec(cfg, ls[..n]).value;
      FifoArrivals(cfg, ls[..n])
      + if ls[n].RunScheduler? && st.scheds[ls[n].s].fifo then [st.scheds[ls[n].s].req] else []
  }

  // The FIFO's list is just that: it never takes a request off.
  lemma {:induction false} FifoIsArrivals(cfg: Config, ls: seq<Label>)
    requires Exec(cfg, ls).Some?
    ensures Exec(cfg, ls).value.fifo == FifoArrivals(cfg, ls)
  {
    if ls != [] {
      var n := |ls| - 1;
      FifoIsArrivals(cfg, ls[..n]);
      FifoOnlyGrows(cfg, Exec(cfg, ls[..n]).value, ls[n]);
    }
  }

  // The request that the FIFO looks at when it serves the scheduler caddy s: the first one that ever
  // reached it, which may be the one that reaches it now.
  ghost function FifoHead(cfg: Config, ls: seq<Label>, s: nat): nat
    requires Exec(cfg, ls).Some? && s < |Exec(cfg, ls).value.scheds|
  {
    var arrived := FifoArrivals(cfg, ls);
    if arrived == [] then Exec(cfg, ls).value.scheds[s].req else arrived[0]
  }

  // Every answer of the FIFO in a run is about the first request that ever reached it: that
  // request is still held, and the answer has its size. When it asks for n >= 1 nodes and passes
  // the guard, the answer is the first n nodes of the pool, whoever the round was for.
  lemma {:induction false} FifoAnswersForItsHead(cfg: Config, ls: seq<Label>, l: Label)
    requires Exec(cfg, ls).Some? && WellIndexed(Exec(cfg, ls).value) && Enabled(cfg, Exec(cfg, ls).value, l)
    requires l.RunScheduler? && Exec(cfg, ls).value.scheds[l.s].fifo
    ensures var head := FifoHead(cfg, ls, l.s);
      var st := Exec(cfg, ls).value;
      var sc := Apply(cfg, st, l).scheds[l.s];
      && head < |st.reqs| && st.reqs[head].refs > 0
      && (sc.alloc.Some? <==> st.reqs[head].params.numNodes < l.avail)
      && (sc.alloc.Some? ==> sc.req == head && sc.alloc.value.pri == sc.order)
      && (sc.alloc.Some? && 1 <= st.reqs[head].params.numNodes && l.avail <= |FifoNodes.Live(l.pool)| ==>
            sc.alloc.value.nodes == FifoNodes.Live(l.pool)[..st.reqs[head].params.numNodes])
  {
    FifoIsArrivals(cfg, ls);
    ReachableInv(cfg, ls);
    var st := Exec(cfg, ls).value;
    TouchesOnlyHeldRequests(cfg, st, l, FifoHead(cfg, ls, l.s));
  }

  // The request that a scheduler caddy's round is for.
  function RoundRequest(st: State, s: nat): nat
    requires s < |st.scheds| && st.scheds[s].trk < |st.caddies|
    requires st.caddies[st.scheds[s].trk].mt < |st.metas|
  {
    st.metas[st.caddies[st.scheds[s].trk].mt].req
  }

  // ---- Released requests ----

  lemma {:induction false} InFifo(fifo: seq<nat>, r: nat)
    ensures r in fifo <==> Sum(fifo, Is(r)) > 0
  {
    assert forall i :: 0 <= i < |fifo| ==> Is(r)(fifo[i]) == Bit(fifo[i] == r);
    if r in fifo {
      var i :| 0 <= i < |fifo| && fifo[i] == r;
      SumAtLeast(fifo, i, Is(r));
    } else {
      SumZero(fifo, Is(r));
    }
  }

  // A request is released exactly when it is through, as rejected or complete, and never reached the
  // FIFO.
  lemma {:induction false} ReleasedUnlessInFifo(cfg: Config, ls: seq<Label>, r: nat)
    requires Exec(cfg, ls).Some? && r < |Exec(cfg, ls).value.reqs|
    ensures var st := Exec(cfg, ls).value;
      st.reqs[r].refs == 0 <==>
        && st.reqs[r].ev.Idle? && (ParsesOk(st.reqs[r]) ==> Completed(st.reqs, st.metas, r))
        && r !in FifoArrivals(cfg, ls)
  {
    ReachableInv(cfg, ls);
    FifoIsArrivals(cfg, ls);
    var st := Exec(cfg, ls).value;
    assert ReqLawAt(st.reqs, st.metas, st.fifo, st.table, r);
    InFifo(st.fifo, r);
  }

  // A request that has reached the FIFO is held for ever.
  lemma {:induction false} FifoHoldsForEver(cfg: Config, ls: seq<Label>, more: seq<Label>, r: nat)
    requires Exec(cfg, ls).Some? && Exec(cfg, ls + more).Some? && r in FifoArrivals(cfg, ls)
    ensures var st := Exec(cfg, ls + more).value;
            r < |st.reqs| && st.reqs[r].refs > 0
  {
    FifoIsArrivals(cfg, ls);
    FifoKeepsArrivalOrder(cfg, ls, more);
    ReachableInv(cfg, ls + more);
    var i :| 0 <= i < |FifoArrivals(cfg, ls)| && FifoArrivals(cfg, ls)[i] == r;
    FifoRequestIsHeld(cfg, Exec(cfg, ls + more).value, i);
  }

  // Once nothing is queued, the table slots that are still taken are those of the requests whose
  // directives parse and that are not complete: no meta module took them, or some active module has no
  // schedule function.
  lemma {:induction false} SlotsLeftTaken(cfg: Config, ls: seq<Label>, r: nat, i: nat)
    requires Exec(cfg, ls).Some? && Drained(Exec(cfg, ls).value)
    requires r < |Exec(cfg, ls).value.reqs| && i < |Exec(cfg, ls).value.table|
    ensures var st := Exec(cfg, ls).value;
      var completed := AbsentMetas(cfg) == 0 && AbsentScheds(cfg) == 0 && TakenBy(cfg, ls, r);
      && (st.table[i] == Some(r) <==> st.reqs[r].index == i && FirstError(st.reqs[r].infos) == 0 && !completed)
      && (FirstError(st.reqs[r].infos) == 0 && !completed ==> InTable(st.table, r, st.reqs[r].index))
  {
    ReachableInv(cfg, ls);
    var st := Exec(cfg, ls).value;
    assert ReqLawAt(st.reqs, st.metas, st.fifo, st.table, r);
    DrainedCompletion(cfg, st, r);
    TakenInRun(cfg, ls, r);
  }

  // A request is released without an allocation exactly when it was rejected, or when no scheduler
  // answered the caddy that may assign one.
  lemma {:induction false} ReleasedWithoutAllocation(cfg: Config, ls: seq<Label>, r: nat)
    requires Exec(cfg, ls).Some? && r < |Exec(cfg, ls).value.reqs| && WellIndexed(Exec(cfg, ls).value)
    requires Exec(cfg, ls).value.reqs[r].refs == 0
    ensures var st := Exec(cfg, ls).value;
      st.reqs[r].allocation.None? <==>
        !ParsesOk(st.reqs[r])
        || exists c: nat :: c < |st.caddies| && Chosen(st.caddies[c]) && st.metas[st.caddies[c].mt].req == r
             && forall k, a :: !Answered(st, c, k, a)
  {
    ReachableInv(cfg, ls);
    var st := Exec(cfg, ls).value;
    ReleasedRequests(cfg, ls, r);
    if ParsesOk(st.reqs[r]) {
      var c := CompletedHasChooser(cfg, st, r);
      BestIsFirstAnswer(cfg, st, c);
      if st.reqs[r].allocation.Some? {
        forall d: nat | d < |st.caddies| && Chosen(st.caddies[d]) && st.metas[st.caddies[d].mt].req == r
          ensures exists k, a :: Answered(st, d, k, a)
        {
          BestIsFirstAnswer(cfg, st, d);
        }
      }
    }
  }
}
