// What holds of every run of the round, whatever the interleaving.
module RoundTheorems {
  import opened Sums
  import opened Directives
  import opened Round
  import opened RoundInvariant
  import opened RoundSteps

  // ---- Every reachable state ----

  lemma {:induction false} ReachableInv(cfg: Config, ls: seq<Label>)
    requires Exec(cfg, ls).Some?
    ensures Inv(cfg, Exec(cfg, ls).value)
  {
    if ls == [] {
      InitialInv(cfg);
    } else {
      var n := |ls| - 1;
      ReachableInv(cfg, ls[..n]);
      StepKeepsInv(cfg, Exec(cfg, ls[..n]).value, ls[n]);
    }
  }

  // A queued callback can always be served: no handler ever meets an index out of range.
  lemma EnabledCanRun(cfg: Config, ls: seq<Label>, l: Label)
    requires Exec(cfg, ls).Some? && Enabled(cfg, Exec(cfg, ls).value, l)
    ensures WellIndexed(Exec(cfg, ls).value)
    ensures Exec(cfg, ls + [l]) == Some(Apply(cfg, Exec(cfg, ls).value, l))
  {
    ReachableInv(cfg, ls);
    assert (ls + [l])[..|ls|] == ls;
  }

  // ---- Reference counting ----

  // A request's reference count is the number of its holders: the pending creation event or its
  // slot in the request table, its live meta objects, and its entries in the FIFO list.
  lemma ReferencesAreHolders(cfg: Config, ls: seq<Label>, r: nat)
    requires Exec(cfg, ls).Some? && r < |Exec(cfg, ls).value.reqs|
    ensures var st := Exec(cfg, ls).value;
            st.reqs[r].refs == Bit(st.reqs[r].ev.Init?) + Bit(InTable(st.table, r, st.reqs[r].index))
                               + Sum(st.metas, LiveOf(r)) + Sum(st.fifo, Is(r))
    ensures var st := Exec(cfg, ls).value;
            Sum(st.metas, LiveOf(r)) <= 1
  {
    ReachableInv(cfg, ls);
    var st := Exec(cfg, ls).value;
    assert ReqLawAt(st.reqs, st.metas, st.fifo, st.table, r);
  }

  // The requests that the handler of a label follows a pointer to.
  ghost function RequestsTouched(st: State, l: Label): set<nat>
    requires WellIndexed(st)
  {
    match l
    case Arrive(_, _) => {}
    case RequestInit(r, _) => {r}
    case MetaBaseSchedule(r, _) => {r}
    case PriSchedule(_) => {}
    case SchedBaseSchedule(c, _) => if c < |st.caddies| then {st.metas[st.caddies[c].mt].req} else {}
    case RunScheduler(s, _, _, _) =>
      if s < |st.scheds| then {st.scheds[s].req, if st.fifo == [] then st.scheds[s].req else st.fifo[0]} else {}
    case SchedBaseCallback(_) => {}
    case PriCallback(c) => if c < |st.caddies| then {st.metas[st.caddies[c].mt].req} else {}
    case MetaBaseCallback(c) => if c < |st.caddies| then {st.metas[st.caddies[c].mt].req} else {}
  }

  // The caddy that the handler of a label follows a pointer to, and through it a meta object.
  ghost function CaddiesTouched(st: State, l: Label): set<nat>
    requires WellIndexed(st)
  {
    match l
    case PriSchedule(c) => {c}
    case SchedBaseSchedule(c, _) => {c}
    case PriCallback(c) => {c}
    case MetaBaseCallback(c) => {c}
    case SchedBaseCallback(s) => if s < |st.scheds| then {st.scheds[s].trk} else {}
    case _ => {}
  }

  lemma QueuedRequestIsHeld(cfg: Config, st: State, r: nat)
    requires Inv(cfg, st) && r < |st.reqs| && !st.reqs[r].ev.Idle?
    ensures st.reqs[r].refs > 0
  {
    assert ReqLawAt(st.reqs, st.metas, st.fifo, st.table, r);
  }

  lemma FifoRequestIsHeld(cfg: Config, st: State, i: nat)
    requires Inv(cfg, st) && i < |st.fifo|
    ensures st.reqs[st.fifo[i]].refs > 0
  {
    var r := st.fifo[i];
    assert ReqLawAt(st.reqs, st.metas, st.fifo, st.table, r);
    assert Is(r)(st.fifo[i]) == Bit(st.fifo[i] == r);
    SumAtLeast(st.fifo, i, Is(r));
  }

  lemma CaddyRequestIsHeld(cfg: Config, st: State, c: nat)
    requires Inv(cfg, st) && c < |st.caddies| && st.caddies[c].live
    ensures st.metas[st.caddies[c].mt].live && st.reqs[st.metas[st.caddies[c].mt].req].refs > 0
  {
    LiveCaddyHasLiveMeta(cfg, st, c);
    LiveMetaHoldsRequest(cfg, st, st.caddies[c].mt);
  }

  lemma TouchesOnlyHeldRequests(cfg: Config, st: State, l: Label, r: nat)
    requires Inv(cfg, st) && Enabled(cfg, st, l) && r in RequestsTouched(st, l)
    ensures r < |st.reqs| && st.reqs[r].refs > 0
  {
    match l
    case RequestInit(x, _) => QueuedRequestIsHeld(cfg, st, x);
    case MetaBaseSchedule(x, _) => QueuedRequestIsHeld(cfg, st, x);
    case SchedBaseSchedule(c, _) => assert CaddyShape(st.caddies[c]); CaddyRequestIsHeld(cfg, st, c);
    case RunScheduler(s, _, _, _) =>
      PendingSchedIsAwaited(cfg, st, s);
      CaddyRequestIsHeld(cfg, st, st.scheds[s].trk);
      if st.fifo != [] {
        FifoRequestIsHeld(cfg, st, 0);
      }
    case PriCallback(c) => assert CaddyShape(st.caddies[c]); CaddyRequestIsHeld(cfg, st, c);
    case MetaBaseCallback(c) => assert CaddyShape(st.caddies[c]); CaddyRequestIsHeld(cfg, st, c);
    case _ =>
  }

  lemma TouchesOnlyLiveCaddies(cfg: Config, st: State, l: Label, c: nat)
    requires Inv(cfg, st) && Enabled(cfg, st, l) && c in CaddiesTouched(st, l)
    ensures c < |st.caddies| && st.caddies[c].live && st.metas[st.caddies[c].mt].live
  {
    match l
    case SchedBaseCallback(s) =>
      PendingSchedIsAwaited(cfg, st, s);
      CaddyRequestIsHeld(cfg, st, c);
    case PriSchedule(_) => assert CaddyShape(st.caddies[c]); CaddyRequestIsHeld(cfg, st, c);
    case SchedBaseSchedule(_, _) => assert CaddyShape(st.caddies[c]); CaddyRequestIsHeld(cfg, st, c);
    case PriCallback(_) => assert CaddyShape(st.caddies[c]); CaddyRequestIsHeld(cfg, st, c);
    case MetaBaseCallback(_) => assert CaddyShape(st.caddies[c]); CaddyRequestIsHeld(cfg, st, c);
    case Arrive(_, _) => assert false;
    case RequestInit(_, _) => assert false;
    case MetaBaseSchedule(_, _) => assert false;
    case RunScheduler(_, _, _, _) => assert false;
  }

  // No handler follows a pointer to a request, meta object or caddy that has been released.
  lemma {:induction false} NoUseAfterRelease(cfg: Config, ls: seq<Label>, l: Label)
    requires Exec(cfg, ls).Some? && WellIndexed(Exec(cfg, ls).value) && Enabled(cfg, Exec(cfg, ls).value, l)
    ensures var st := Exec(cfg, ls).value;
      && (forall r :: r in RequestsTouched(st, l) ==> r < |st.reqs| && st.reqs[r].refs > 0)
      && (forall c :: c in CaddiesTouched(st, l) ==>
            c < |st.caddies| && st.caddies[c].live && st.metas[st.caddies[c].mt].live)
  {
    ReachableInv(cfg, ls);
    var st := Exec(cfg, ls).value;
    forall r | r in RequestsTouched(st, l)
      ensures r < |st.reqs| && st.reqs[r].refs > 0
    {
      TouchesOnlyHeldRequests(cfg, st, l, r);
    }
    forall c | c in CaddiesTouched(st, l)
      ensures c < |st.caddies| && st.caddies[c].live && st.metas[st.caddies[c].mt].live
    {
      TouchesOnlyLiveCaddies(cfg, st, l, c);
    }
  }

  lemma UntouchedRequestsKept(cfg: Config, st: State, l: Label, r: nat)
    requires WellIndexed(st) && Enabled(cfg, st, l) && r < |st.reqs| && r !in RequestsTouched(st, l)
    ensures r < |Apply(cfg, st, l).reqs| && Apply(cfg, st, l).reqs[r] == st.reqs[r]
  {
  }

  // A request whose count has reached zero is never seen again: nothing about it changes.
  lemma {:induction false} ReleasedStaysReleased(cfg: Config, ls: seq<Label>, more: seq<Label>, r: nat)
    requires Exec(cfg, ls).Some? && Exec(cfg, ls + more).Some?
    requires r < |Exec(cfg, ls).value.reqs| && Exec(cfg, ls).value.reqs[r].refs == 0
    ensures r < |Exec(cfg, ls + more).value.reqs|
    ensures Exec(cfg, ls + more).value.reqs[r] == Exec(cfg, ls).value.reqs[r]
  {
    if more == [] {
      assert ls + more == ls;
    } else {
      var n := |more| - 1;
      var l := more[n];
      assert (ls + more)[..|ls + more| - 1] == ls + more[..n];
      ReleasedStaysReleased(cfg, ls, more[..n], r);
      var st := Exec(cfg, ls + more[..n]).value;
      if r in RequestsTouched(st, l) {
        NoUseAfterRelease(cfg, ls + more[..n], l);
        assert false;
      }
      UntouchedRequestsKept(cfg, st, l, r);
    }
  }

  // ---- Replies ----

  ghost predicate Drained(st: State) {
    && (forall r :: 0 <= r < |st.reqs| ==> st.reqs[r].ev.Idle?)
    && (forall c :: 0 <= c < |st.caddies| ==> st.caddies[c].ev.Idle?)
    && (forall s :: 0 <= s < |st.scheds| ==> st.scheds[s].ev.Idle?)
  }

  // Serving l calls the meta modules for request r, and one of them takes it.
  ghost predicate SomeoneTakes(cfg: Config, l: Label, r: nat) {
    && l.MetaBaseSchedule? && l.r == r && |l.accepts| == |cfg.metas|
    && exists i :: 0 <= i < |cfg.metas| && cfg.metas[i] && l.accepts[i]
  }

  ghost predicate Taken(st: State, r: nat) {
    exists m :: 0 <= m < |st.metas| && st.metas[m].req == r && st.metas[m].accepted > 0
  }

  lemma {:induction false} FanMetasTakes(mods: seq<bool>, accepts: seq<bool>, mt: nat, n: nat)
    requires n <= |mods| == |accepts|
    ensures FanMetas(mods, accepts, mt, n).created != [] <==> exists i :: 0 <= i < n && mods[i] && accepts[i]
  {
    if n > 0 {
      FanMetasTakes(mods, accepts, mt, n - 1);
    }
  }

  lemma StepTakes(cfg: Config, st: State, l: Label, r: nat)
    requires WellIndexed(st) && Enabled(cfg, st, l)
    ensures Taken(Apply(cfg, st, l), r) <==> Taken(st, r) || SomeoneTakes(cfg, l, r)
  {
    var st' := Apply(cfg, st, l);
    if l.MetaBaseSchedule? {
      FanMetasTakes(cfg.metas, l.accepts, |st.metas|, |cfg.metas|);
      var m := |st.metas|;
      assert st'.metas[m].accepted > 0 <==> SomeoneTakes(cfg, l, l.r);
      assert forall x :: 0 <= x < m ==> st'.metas[x] == st.metas[x];
      if Taken(st, r) {
        var x :| 0 <= x < |st.metas| && st.metas[x].req == r && st.metas[x].accepted > 0;
        assert st'.metas[x].req == r && st'.metas[x].accepted > 0;
      }
    } else {
      assert |st'.metas| == |st.metas|;
      assert forall x :: 0 <= x < |st.metas| ==>
        st'.metas[x].req == st.metas[x].req && st'.metas[x].accepted == st.metas[x].accepted;
      if Taken(st, r) {
        var x :| 0 <= x < |st.metas| && st.metas[x].req == r && st.metas[x].accepted > 0;
        assert st'.metas[x].req == r && st'.metas[x].accepted > 0;
      }
    }
  }

  ghost predicate TakenBy(cfg: Config, ls: seq<Label>, r: nat) {
    exists k :: 0 <= k < |ls| && SomeoneTakes(cfg, ls[k], r)
  }

  lemma TakesAppend(cfg: Config, ls: seq<Label>, l: Label, r: nat)
    ensures TakenBy(cfg, ls + [l], r) <==> TakenBy(cfg, ls, r) || SomeoneTakes(cfg, l, r)
  {
    assert (ls + [l])[|ls|] == l;
    assert forall k :: 0 <= k < |ls| ==> (ls + [l])[k] == ls[k];
  }

  // A request counts as taken exactly when the run contains a step in which a module took it.
  lemma {:induction false} TakenInRun(cfg: Config, ls: seq<Label>, r: nat)
    requires Exec(cfg, ls).Some?
    ensures Taken(Exec(cfg, ls).value, r) <==> TakenBy(cfg, ls, r)
  {
    if ls != [] {
      var n := |ls| - 1;
      TakenInRun(cfg, ls[..n], r);
      StepTakes(cfg, Exec(cfg, ls[..n]).value, ls[n], r);
      TakesAppend(cfg, ls[..n], ls[n], r);
      assert ls[..n] + [ls[n]] == ls;
    }
  }

  // The callback is called at most once, or at most twice when the requestor is not waiting: an
  // acknowledgement and then the completion. A rejected request is told its first error.
  lemma {:induction false} RepliesAtMostOnce(cfg: Config, ls: seq<Label>, r: nat)
    requires Exec(cfg, ls).Some? && r < |Exec(cfg, ls).value.reqs|
    ensures var q := Exec(cfg, ls).value.reqs[r];
      && |q.replies| <= (if NotWaiting in q.infos then 2 else 1)
      && (forall i, j :: 0 <= i < j < |q.replies| ==> q.replies[i].kind != q.replies[j].kind)
      && (forall i :: 0 <= i < |q.replies| && q.replies[i].kind.Reject? ==>
            q.replies[i].status == Failed(FirstError(q.infos)) && FirstError(q.infos) != 0)
      && (forall i :: 0 <= i < |q.replies| && q.replies[i].kind.Acknowledge? ==> NotWaiting in q.infos)
  {
    ReachableInv(cfg, ls);
    var st := Exec(cfg, ls).value;
    assert ReqLawAt(st.reqs, st.metas, st.fifo, st.table, r);
  }

  // Whether a request is completed once the queues are empty depends only on these facts: its
  // directives parse, some meta module takes it, and every active module has a schedule function.
  lemma DrainedCompletion(cfg: Config, st: State, r: nat)
    requires Inv(cfg, st) && Drained(st) && r < |st.reqs|
    ensures Completed(st.reqs, st.metas, r) <==>
      ParsesOk(st.reqs[r]) && Taken(st, r) && AbsentMetas(cfg) == 0 && AbsentScheds(cfg) == 0
  {
    assert ReqLawAt(st.reqs, st.metas, st.fifo, st.table, r);
    if ParsesOk(st.reqs[r]) {
      var m := SumWitness(st.metas, MetaOf(r));
      assert MetaLawAt(cfg, st.metas, st.caddies, m);
      MetaDrained(cfg, st, m);
      if Taken(st, r) {
        var x :| 0 <= x < |st.metas| && st.metas[x].req == r && st.metas[x].accepted > 0;
        OneMetaPerRequest(cfg, st, x, m);
      }
      if st.metas[m].live {
        SumAtLeast(st.metas, m, LiveOf(r));
      } else {
        if Sum(st.metas, LiveOf(r)) > 0 {
          var x := SumWitness(st.metas, LiveOf(r));
          OneMetaPerRequest(cfg, st, x, m);
          assert false;
        }
      }
    }
  }

  // In a drained state a caddy is waiting for ever exactly when some scheduler never answers.
  lemma MetaDrained(cfg: Config, st: State, m: nat)
    requires Inv(cfg, st) && Drained(st) && m < |st.metas|
    ensures AbsentScheds(cfg) == 0 ==> Sum(st.caddies, LiveFor(m)) == 0
    ensures AbsentScheds(cfg) > 0 && st.metas[m].accepted > 0 ==> Sum(st.caddies, LiveFor(m)) > 0
  {
    forall c | 0 <= c < |st.caddies|
      ensures st.caddies[c].live <==> st.caddies[c].trk.Some? && AbsentScheds(cfg) > 0
    {
      assert CaddyShape(st.caddies[c]);
      SumZero(st.scheds, PendingFor(c));
    }
    if AbsentScheds(cfg) == 0 {
      SumZero(st.caddies, LiveFor(m));
    } else if st.metas[m].accepted > 0 {
      assert MetaLawAt(cfg, st.metas, st.caddies, m);
      var c := SumWitness(st.caddies, OfMeta(m));
      SumAtLeast(st.caddies, c, LiveFor(m));
    }
  }

  // All that the requestor is told once nothing is queued: the rejection when the directives do not
  // parse; otherwise an acknowledgement if it does not wait, and the completion with the request's
  // status exactly when some meta module took the request and every active module has a schedule
  // function.
  lemma {:induction false} DrainedReplies(cfg: Config, ls: seq<Label>, r: nat)
    requires Exec(cfg, ls).Some? && Drained(Exec(cfg, ls).value) && r < |Exec(cfg, ls).value.reqs|
    requires Exec(cfg, ls).value.reqs[r].hasCallback
    ensures var q := Exec(cfg, ls).value.reqs[r];
      var completed := AbsentMetas(cfg) == 0 && AbsentScheds(cfg) == 0 && TakenBy(cfg, ls, r);
      var early := if NotWaiting in q.infos then [Reply(Acknowledge, Success)] else [];
      var late := if completed then [Reply(Complete, q.status)] else [];
      q.replies == if FirstError(q.infos) != 0 then [Reply(Reject, Failed(FirstError(q.infos)))] else early + late
  {
    ReachableInv(cfg, ls);
    var st := Exec(cfg, ls).value;
    assert ReqLawAt(st.reqs, st.metas, st.fifo, st.table, r);
    DrainedCompletion(cfg, st, r);
    TakenInRun(cfg, ls, r);
  }

  // The completion reply, the clearing of the table slot and the release of the meta object are
  // one step, and the slot cleared is the request's own.
  lemma CompletionClearsSlot(cfg: Config, st: State, l: Label, r: nat)
    requires Inv(cfg, st) && Enabled(cfg, st, l) && r < |st.reqs|
    requires r < |Apply(cfg, st, l).reqs|
    requires Completed(Apply(cfg, st, l).reqs, Apply(cfg, st, l).metas, r) && !Completed(st.reqs, st.metas, r)
    ensures var st' := Apply(cfg, st, l);
      && l.MetaBaseCallback?
      && InTable(st.table, r, st.reqs[r].index) && st'.table == st.table[st.reqs[r].index := None]
      && st'.reqs[r].replies == Called(st.reqs[r], Complete, st.reqs[r].status).replies
  {
    if l.MetaBaseCallback? {
      assert CaddyShape(st.caddies[l.c]);
      LiveCaddyHasLiveMeta(cfg, st, l.c);
      LiveMetaHoldsRequest(cfg, st, st.caddies[l.c].mt);
      OnlyItsOwnCompletion(cfg, st, l.c, r);
    } else {
      NoOtherCompletion(cfg, st, l, r);
      assert false;
    }
  }

  // A response completes no request but the one of its meta object.
  lemma OnlyItsOwnCompletion(cfg: Config, st: State, c: nat, r: nat)
    requires WellIndexed(st) && Enabled(cfg, st, MetaBaseCallback(c)) && r < |st.reqs|
    requires !Completed(st.reqs, st.metas, r)
    requires Completed(DoMetaBaseCallback(st, c).reqs, DoMetaBaseCallback(st, c).metas, r)
    ensures var mt := st.metas[st.caddies[c].mt];
            mt.req == r && mt.nresponded + 1 == mt.nactive
  {
    var m := st.caddies[c].mt;
    SumUpdate(st.metas, m, DoMetaBaseCallback(st, c).metas[m], LiveOf(r));
  }

  lemma NoOtherCompletion(cfg: Config, st: State, l: Label, r: nat)
    requires WellIndexed(st) && Enabled(cfg, st, l) && r < |st.reqs| && !l.MetaBaseCallback?
    requires !Completed(st.reqs, st.metas, r)
    ensures r < |Apply(cfg, st, l).reqs|
    ensures !Completed(Apply(cfg, st, l).reqs, Apply(cfg, st, l).metas, r)
  {
    MetasOnlyGrow(cfg, st, l, r);
    UnfinishedStays(cfg, st, l, r);
  }

  // Apart from the base callback, no handler makes a meta object less live.
  lemma MetasOnlyGrow(cfg: Config, st: State, l: Label, r: nat)
    requires WellIndexed(st) && Enabled(cfg, st, l) && r < |st.reqs| && !l.MetaBaseCallback?
    ensures var st' := Apply(cfg, st, l);
            Sum(st'.metas, LiveOf(r)) == Sum(st.metas, LiveOf(r)) + Bit(l.MetaBaseSchedule? && l.r == r)
  {
    if l.MetaBaseSchedule? {
      var st' := DoMetaBaseSchedule(cfg, st, l.r, l.accepts);
      assert st'.metas == st.metas + [st'.metas[|st.metas|]];
      SumAppend(st.metas, st'.metas[|st.metas|], LiveOf(r));
    } else {
      assert Apply(cfg, st, l).metas == st.metas;
    }
  }

  lemma UnfinishedStays(cfg: Config, st: State, l: Label, r: nat)
    requires WellIndexed(st) && Enabled(cfg, st, l) && r < |st.reqs| && !l.MetaBaseCallback?
    ensures var st' := Apply(cfg, st, l);
      && r < |st'.reqs|
      && (!(st.reqs[r].ev.Idle? && ParsesOk(st.reqs[r])) && !(l.MetaBaseSchedule? && l.r == r) ==>
            !(st'.reqs[r].ev.Idle? && ParsesOk(st'.reqs[r])))
  {
  }

  // ---- Queueing ----

  lemma QueuedRequestsKept(cfg: Config, st: State, l: Label, r: nat)
    requires WellIndexed(st) && Enabled(cfg, st, l) && r < |st.reqs| && !st.reqs[r].ev.Idle?
    requires !(l.RequestInit? && l.r == r) && !(l.MetaBaseSchedule? && l.r == r)
    ensures r < |Apply(cfg, st, l).reqs| && Apply(cfg, st, l).reqs[r].ev == st.reqs[r].ev
  {
  }

  lemma QueuedSchedulersKept(cfg: Config, st: State, l: Label, s: nat)
    requires WellIndexed(st) && Enabled(cfg, st, l) && s < |st.scheds| && !st.scheds[s].ev.Idle?
    requires !(l.RunScheduler? && l.s == s) && !(l.SchedBaseCallback? && l.s == s)
    ensures s < |Apply(cfg, st, l).scheds| && Apply(cfg, st, l).scheds[s].ev == st.scheds[s].ev
  {
  }

  lemma UntouchedCaddiesKept(cfg: Config, st: State, l: Label, c: nat)
    requires WellIndexed(st) && Enabled(cfg, st, l) && c < |st.caddies| && c !in CaddiesTouched(st, l)
    ensures c < |Apply(cfg, st, l).caddies| && Apply(cfg, st, l).caddies[c] == st.caddies[c]
  {
  }

  // The object whose callback is being served.
  ghost predicate Serves(l: Label, r: int, c: int, s: int) {
    match l
    case Arrive(_, _) => false
    case RequestInit(x, _) => x == r
    case MetaBaseSchedule(x, _) => x == r
    case PriSchedule(x) => x == c
    case SchedBaseSchedule(x, _) => x == c
    case RunScheduler(x, _, _, _) => x == s
    case SchedBaseCallback(x) => x == s
    case PriCallback(x) => x == c
    case MetaBaseCallback(x) => x == c
  }

  lemma QueuedCaddyKept(cfg: Config, st: State, l: Label, c: nat)
    requires Inv(cfg, st) && Enabled(cfg, st, l) && c < |st.caddies| && !st.caddies[c].ev.Idle?
    requires !Serves(l, -1, c, -1)
    ensures c < |Apply(cfg, st, l).caddies| && Apply(cfg, st, l).caddies[c].ev == st.caddies[c].ev
  {
    if l.SchedBaseCallback? {
      PendingSchedIsAwaited(cfg, st, l.s);
    }
    UntouchedCaddiesKept(cfg, st, l, c);
  }

  // Serving one callback never re-queues another object that is still queued, so no queued
  // callback is ever lost or replaced.
  lemma {:induction false} NoQueuedEventLost(cfg: Config, ls: seq<Label>, l: Label)
    requires Exec(cfg, ls).Some? && Exec(cfg, ls + [l]).Some?
    ensures var st, st' := Exec(cfg, ls).value, Exec(cfg, ls + [l]).value;
      && |st.reqs| <= |st'.reqs| && |st.caddies| <= |st'.caddies| && |st.scheds| <= |st'.scheds|
      && (forall r :: 0 <= r < |st.reqs| && !st.reqs[r].ev.Idle? && !Serves(l, r, -1, -1) ==>
            st'.reqs[r].ev == st.reqs[r].ev)
      && (forall c :: 0 <= c < |st.caddies| && !st.caddies[c].ev.Idle? && !Serves(l, -1, c, -1) ==>
            st'.caddies[c].ev == st.caddies[c].ev)
      && (forall s :: 0 <= s < |st.scheds| && !st.scheds[s].ev.Idle? && !Serves(l, -1, -1, s) ==>
            st'.scheds[s].ev == st.scheds[s].ev)
  {
    ReachableInv(cfg, ls);
    assert (ls + [l])[..|ls|] == ls;
    var st := Exec(cfg, ls).value;
    ObjectsNeverVanish(cfg, st, l);
    forall r | 0 <= r < |st.reqs| && !st.reqs[r].ev.Idle? && !Serves(l, r, -1, -1)
      ensures Apply(cfg, st, l).reqs[r].ev == st.reqs[r].ev
    {
      QueuedRequestsKept(cfg, st, l, r);
    }
    forall c | 0 <= c < |st.caddies| && !st.caddies[c].ev.Idle? && !Serves(l, -1, c, -1)
      ensures Apply(cfg, st, l).caddies[c].ev == st.caddies[c].ev
    {
      QueuedCaddyKept(cfg, st, l, c);
    }
    forall s | 0 <= s < |st.scheds| && !st.scheds[s].ev.Idle? && !Serves(l, -1, -1, s)
      ensures Apply(cfg, st, l).scheds[s].ev == st.scheds[s].ev
    {
      QueuedSchedulersKept(cfg, st, l, s);
    }
  }

  lemma ObjectsNeverVanish(cfg: Config, st: State, l: Label)
    requires WellIndexed(st) && Enabled(cfg, st, l)
    ensures var st' := Apply(cfg, st, l);
            |st.reqs| <= |st'.reqs| && |st.caddies| <= |st'.caddies| && |st.scheds| <= |st'.scheds|
  {
  }

  // The continuation of a caddy is queued with the last of its schedulers' responses and with no
  // other, and never when some scheduler cannot respond.
  lemma {:induction false} ContinuationWithLastResponse(cfg: Config, st: State, s: nat)
    requires Inv(cfg, st) && Enabled(cfg, st, SchedBaseCallback(s))
    ensures var st' := DoSchedBaseCallback(st, s);
      var c := st.scheds[s].trk;
      st'.caddies[c].ev.PriChoose? <==> Sum(st'.scheds, PendingFor(c)) == 0 && AbsentScheds(cfg) == 0
  {
    var st' := DoSchedBaseCallback(st, s);
    var c := st.scheds[s].trk;
    PendingSchedIsAwaited(cfg, st, s);
    assert CaddyShape(st.caddies[c]);
    StepKeepsInv(cfg, st, SchedBaseCallback(s));
    assert CaddyShape(st'.caddies[c]);
  }

  // ---- The callbacks of a caddy ----

  // How far a caddy has come.
  function Stage(cd: Caddy): nat {
    match cd.ev
    case PriSched => 0
    case SchedBase => 1
    case PriChoose => 3
    case MetaBase => 4
    case Idle => if cd.live then 2 else 5
  }

  // The stage at which a callback serves a caddy.
  function ServedAt(l: Label): nat {
    match l
    case PriSchedule(_) => 0
    case SchedBaseSchedule(_, _) => 1
    case PriCallback(_) => 3
    case _ => 4
  }

  // A handler never takes the caddy that it touches back, and takes the one that it serves further.
  lemma TouchedStage(cfg: Config, st: State, l: Label, c: nat)
    requires Inv(cfg, st) && Enabled(cfg, st, l) && c in CaddiesTouched(st, l)
    ensures c < |st.caddies| && c < |Apply(cfg, st, l).caddies|
    ensures Stage(st.caddies[c]) <= Stage(Apply(cfg, st, l).caddies[c])
    ensures Serves(l, -1, c, -1) ==> Stage(st.caddies[c]) == ServedAt(l) < Stage(Apply(cfg, st, l).caddies[c])
  {
    TouchesOnlyLiveCaddies(cfg, st, l, c);
    assert CaddyShape(st.caddies[c]);
    if l.SchedBaseCallback? {
      PendingSchedIsAwaited(cfg, st, l.s);
    }
  }

  lemma StageMoves(cfg: Config, st: State, l: Label, c: nat)
    requires Inv(cfg, st) && Enabled(cfg, st, l) && c < |st.caddies|
    ensures c < |Apply(cfg, st, l).caddies| && Stage(st.caddies[c]) <= Stage(Apply(cfg, st, l).caddies[c])
    ensures Serves(l, -1, c, -1) ==> Stage(st.caddies[c]) == ServedAt(l) < Stage(Apply(cfg, st, l).caddies[c])
  {
    if c in CaddiesTouched(st, l) {
      TouchedStage(cfg, st, l, c);
    } else {
      UntouchedCaddiesKept(cfg, st, l, c);
    }
  }

  lemma {:induction false} StageNeverFalls(cfg: Config, ls: seq<Label>, more: seq<Label>, c: nat)
    requires Exec(cfg, ls).Some? && Exec(cfg, ls + more).Some? && c < |Exec(cfg, ls).value.caddies|
    ensures c < |Exec(cfg, ls + more).value.caddies|
    ensures Stage(Exec(cfg, ls).value.caddies[c]) <= Stage(Exec(cfg, ls + more).value.caddies[c])
  {
    if more == [] {
      assert ls + more == ls;
    } else {
      var n := |more| - 1;
      assert (ls + more)[..|ls + more| - 1] == ls + more[..n];
      StageNeverFalls(cfg, ls, more[..n], c);
      ReachableInv(cfg, ls + more[..n]);
      StageMoves(cfg, Exec(cfg, ls + more[..n]).value, more[n], c);
    }
  }

  // In every run the callbacks of a caddy are served in their order and each at most once: passing it
  // on, calling the schedulers, choosing, and counting its response.
  lemma {:induction false} CaddyCallbacksOnce(cfg: Config, ls: seq<Label>, l: Label, more: seq<Label>, l': Label,
      c: nat)
    requires Exec(cfg, ls + [l] + more + [l']).Some?
    requires Serves(l, -1, c, -1) && Serves(l', -1, c, -1)
    ensures ServedAt(l) < ServedAt(l')
  {
    var first, second := ls + [l], ls + [l] + more;
    assert (second + [l'])[..|second|] == second;
    PrefixRuns(cfg, first, more);
    assert first[..|ls|] == ls;
    ReachableInv(cfg, ls);
    ReachableInv(cfg, second);
    StageMoves(cfg, Exec(cfg, ls).value, l, c);
    StageNeverFalls(cfg, first, more, c);
    StageMoves(cfg, Exec(cfg, second).value, l', c);
  }

  lemma {:induction false} PrefixRuns(cfg: Config, ls: seq<Label>, more: seq<Label>)
    requires Exec(cfg, ls + more).Some?
    ensures Exec(cfg, ls).Some?
  {
    if more == [] {
      assert ls + more == ls;
    } else {
      assert (ls + more)[..|ls + more| - 1] == ls + more[..|more| - 1];
      PrefixRuns(cfg, ls, more[..|more| - 1]);
    }
  }

  // ---- Released requests ----

  // A request that has been released was rejected or completed, and a rejected one never had an
  // allocation.
  lemma ReleasedRequests(cfg: Config, ls: seq<Label>, r: nat)
    requires Exec(cfg, ls).Some? && r < |Exec(cfg, ls).value.reqs|
    requires Exec(cfg, ls).value.reqs[r].refs == 0
    ensures var st := Exec(cfg, ls).value;
      && (ParsesOk(st.reqs[r]) <==> Completed(st.reqs, st.metas, r))
      && (!ParsesOk(st.reqs[r]) ==> st.reqs[r].allocation.None?)
  {
    ReachableInv(cfg, ls);
    var st := Exec(cfg, ls).value;
    assert ReqLawAt(st.reqs, st.metas, st.fifo, st.table, r);
    if !ParsesOk(st.reqs[r]) && st.reqs[r].allocation.Some? {
      var c :| 0 <= c < |st.caddies| && Chosen(st.caddies[c]) && st.metas[st.caddies[c].mt].req == r;
      SumAtLeast(st.metas, st.caddies[c].mt, MetaOf(r));
      assert false;
    }
  }
}
