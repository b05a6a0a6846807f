// What the steps of a run come to in terms of the requests as they arrived and of what the modules
// answered: who is called, what is recorded of a request, what an answer holds and what status results.
module RoundRecords {
  import opened Sums
  import opened Directives
  import opened Round
  import opened RoundInvariant
  import opened RoundSteps
  import opened RoundTheorems
  import opened RoundOutcome
  import FifoNodes

  // ---- Who is called ----

  // Some of the calls is for scheduler i.
  ghost predicate Calls(scheds: seq<SchedCaddy>, i: nat) {
    exists s :: 0 <= s < |scheds| && scheds[s].mod == i
  }

  lemma CallsAppend(scheds: seq<SchedCaddy>, sc: SchedCaddy, i: nat)
    ensures Calls(scheds + [sc], i) <==> Calls(scheds, i) || sc.mod == i
  {
    var t := scheds + [sc];
    assert t[|scheds|] == sc && forall s :: 0 <= s < |scheds| ==> t[s] == scheds[s];
    if Calls(scheds, i) {
      var s :| 0 <= s < |scheds| && scheds[s].mod == i;
      assert t[s].mod == i;
    }
  }

  // A call of scheduler mod for caddy c and request r.
  predicate IsCall(mods: seq<SchedModule>, sc: SchedCaddy, c: nat, r: nat) {
    && sc.mod < |mods| && sc.ev.Run? && sc.trk == c && sc.req == r && sc.alloc.None?
    && (sc.fifo <==> mods[sc.mod].Fifo?)
  }

  lemma {:induction false} FanCalls(mods: seq<SchedModule>, accepts: seq<bool>, c: nat, r: nat, n: nat, i: nat)
    requires n <= |mods| == |accepts| && i < |mods|
    ensures var created := FanScheds(mods, accepts, c, r, n).created;
            && (Calls(created, i) <==> i < n && !mods[i].Absent? && accepts[i])
            && forall s :: 0 <= s < |created| ==> IsCall(mods, created[s], c, r)
  {
    if n > 0 {
      var before := FanScheds(mods, accepts, c, r, n - 1);
      FanCalls(mods, accepts, c, r, n - 1, i);
      if !mods[n - 1].Absent? && accepts[n - 1] {
        CallsAppend(before.created, SchedCaddy(Run, before.order, r, c, None, mods[n - 1].Fifo?, n - 1), i);
      }
    }
  }

  // A scheduler is called for a caddy exactly when it has a schedule function and accepts. Each call is
  // for the caddy and its request, and the earlier calls are as they were.
  lemma CalledSchedulers(cfg: Config, st: State, c: nat, accepts: seq<bool>, i: nat)
    requires WellIndexed(st) && Enabled(cfg, st, SchedBaseSchedule(c, accepts)) && i < |cfg.scheds|
    ensures var before, after := st.scheds, Apply(cfg, st, SchedBaseSchedule(c, accepts)).scheds;
      && |before| <= |after| && after[..|before|] == before
      && ((exists s :: |before| <= s < |after| && after[s].mod == i) <==> !cfg.scheds[i].Absent? && accepts[i])
      && (forall s :: |before| <= s < |after| ==>
            IsCall(cfg.scheds, after[s], c, st.metas[st.caddies[c].mt].req))
  {
    var created := FanScheds(cfg.scheds, accepts, c, st.metas[st.caddies[c].mt].req, |cfg.scheds|).created;
    FanCalls(cfg.scheds, accepts, c, st.metas[st.caddies[c].mt].req, |cfg.scheds|, i);
    assert Apply(cfg, st, SchedBaseSchedule(c, accepts)).scheds == st.scheds + created;
    CallsAdded(st.scheds, created, i);
  }

  lemma CallsAdded(before: seq<SchedCaddy>, created: seq<SchedCaddy>, i: nat)
    ensures var after := before + created;
            (exists s :: |before| <= s < |after| && after[s].mod == i) <==> Calls(created, i)
  {
    var after := before + created;
    if Calls(created, i) {
      var s :| 0 <= s < |created| && created[s].mod == i;
      assert after[|before| + s].mod == i;
    }
  }

  // The meta modules that take a request, among the first n.
  function Takers(mods: seq<bool>, accepts: seq<bool>, n: nat): set<nat>
    requires n <= |mods| == |accepts|
  {
    set i: nat | i < n && mods[i] && accepts[i]
  }

  lemma {:induction false} FanTakers(mods: seq<bool>, accepts: seq<bool>, mt: nat, n: nat)
    requires n <= |mods| == |accepts|
    ensures |FanMetas(mods, accepts, mt, n).created| == |Takers(mods, accepts, n)|
  {
    if n > 0 {
      FanTakers(mods, accepts, mt, n - 1);
      if mods[n - 1] && accepts[n - 1] {
        assert Takers(mods, accepts, n) == Takers(mods, accepts, n - 1) + {n - 1};
      } else {
        assert Takers(mods, accepts, n) == Takers(mods, accepts, n - 1);
      }
    }
  }

  lemma {:induction false} FanMetasRefused(mods: seq<bool>, accepts: seq<bool>, mt: nat, n: nat)
    requires n <= |mods| == |accepts|
    ensures FanMetas(mods, accepts, mt, n).refused <= n
    ensures FanMetas(mods, accepts, mt, n).refused == n <==> forall i :: 0 <= i < n ==> mods[i] && !accepts[i]
  {
    if n > 0 {
      FanMetasRefused(mods, accepts, mt, n - 1);
    }
  }

  lemma {:induction false} FanSchedsRefused(mods: seq<SchedModule>, accepts: seq<bool>, c: nat, r: nat, n: nat)
    requires n <= |mods| == |accepts|
    ensures FanScheds(mods, accepts, c, r, n).refused <= n
    ensures FanScheds(mods, accepts, c, r, n).refused == n
       <==> forall i :: 0 <= i < n ==> !mods[i].Absent? && !accepts[i]
  {
    if n > 0 {
      FanSchedsRefused(mods, accepts, c, r, n - 1);
    }
  }

  // Each meta module that has a schedule function and accepts gets one caddy, and no other does. The
  // base adds one of its own exactly when all have a schedule function and refuse.
  lemma CalledMetas(cfg: Config, st: State, r: nat, accepts: seq<bool>)
    requires WellIndexed(st) && Enabled(cfg, st, MetaBaseSchedule(r, accepts))
    ensures var before, after := st.caddies, Apply(cfg, st, MetaBaseSchedule(r, accepts)).caddies;
      var takers := set i: nat | i < |cfg.metas| && cfg.metas[i] && accepts[i];
      var allRefuse := forall i :: 0 <= i < |cfg.metas| ==> cfg.metas[i] && !accepts[i];
      && |before| <= |after| && after[..|before|] == before
      && |after| - |before| == (if allRefuse then 1 else |takers|)
      && (forall c :: |before| <= c < |after| ==>
            after[c].ev == (if allRefuse then MetaBase else PriSched) && after[c].mt == |st.metas|)
  {
    NewCaddiesAdded(cfg, st, r, accepts);
    AddedCaddies(cfg, accepts, |st.metas|);
  }

  lemma AddedCaddies(cfg: Config, accepts: seq<bool>, m: nat)
    requires |accepts| == |cfg.metas|
    ensures var added := NewCaddies(cfg, accepts, m);
      var takers := set i: nat | i < |cfg.metas| && cfg.metas[i] && accepts[i];
      var allRefuse := forall i :: 0 <= i < |cfg.metas| ==> cfg.metas[i] && !accepts[i];
      && |added| == (if allRefuse then 1 else |takers|)
      && forall c :: 0 <= c < |added| ==> added[c].ev == (if allRefuse then MetaBase else PriSched) && added[c].mt == m
  {
    FanTakers(cfg.metas, accepts, m, |cfg.metas|);
    FanMetasRefused(cfg.metas, accepts, m, |cfg.metas|);
    FanMetasShape(cfg, accepts, m, |cfg.metas|);
    assert Takers(cfg.metas, accepts, |cfg.metas|) == set i: nat | i < |cfg.metas| && cfg.metas[i] && accepts[i];
  }

  // Scheduler i works for caddy c.
  ghost predicate WorksFor(scheds: seq<SchedCaddy>, c: nat, i: nat) {
    exists s :: 0 <= s < |scheds| && scheds[s].trk == c && scheds[s].mod == i
  }

  // The schedulers that work for caddy c are those with a schedule function that accept.
  ghost predicate CallsAre(cfg: Config, scheds: seq<SchedCaddy>, c: nat, accepts: seq<bool>)
    requires |accepts| == |cfg.scheds|
  {
    forall i :: 0 <= i < |cfg.scheds| ==> (WorksFor(scheds, c, i) <==> !cfg.scheds[i].Absent? && accepts[i])
  }

  lemma TrackersKept(cfg: Config, st: State, l: Label, c: nat)
    requires Inv(cfg, st) && Enabled(cfg, st, l) && !(l.SchedBaseSchedule? && l.c == c)
    requires c < |Apply(cfg, st, l).caddies| && Apply(cfg, st, l).caddies[c].trk.Some?
    ensures c < |st.caddies| && st.caddies[c].trk.Some?
  {
    if l.MetaBaseSchedule? {
      NewCaddiesAdded(cfg, st, l.r, l.accepts);
      NewCaddiesShape(cfg, l.accepts, |st.metas|);
    }
  }

  lemma OldCallsKept(cfg: Config, st: State, l: Label)
    requires WellIndexed(st) && Enabled(cfg, st, l) && !l.SchedBaseSchedule?
    ensures var after := Apply(cfg, st, l).scheds;
            && |after| == |st.scheds|
            && forall s :: 0 <= s < |after| ==> after[s].trk == st.scheds[s].trk && after[s].mod == st.scheds[s].mod
  {
  }

  lemma SameWorkers(before: seq<SchedCaddy>, after: seq<SchedCaddy>, c: nat, i: nat)
    requires |before| <= |after|
    requires forall s :: 0 <= s < |before| ==> after[s].trk == before[s].trk && after[s].mod == before[s].mod
    requires forall s :: |before| <= s < |after| ==> after[s].trk != c
    ensures WorksFor(after, c, i) <==> WorksFor(before, c, i)
  {
    if WorksFor(before, c, i) {
      var s :| 0 <= s < |before| && before[s].trk == c && before[s].mod == i;
      assert after[s].trk == c && after[s].mod == i;
    }
  }

  lemma CallsOfOthersKept(cfg: Config, st: State, l: Label, c: nat, accepts: seq<bool>)
    requires WellIndexed(st) && Enabled(cfg, st, l) && !(l.SchedBaseSchedule? && l.c == c)
    requires |accepts| == |cfg.scheds| && CallsAre(cfg, st.scheds, c, accepts)
    ensures CallsAre(cfg, Apply(cfg, st, l).scheds, c, accepts)
  {
    var after := Apply(cfg, st, l).scheds;
    forall i: nat | i < |cfg.scheds|
      ensures WorksFor(after, c, i) <==> WorksFor(st.scheds, c, i)
    {
      if l.SchedBaseSchedule? {
        CalledSchedulers(cfg, st, l.c, l.accepts, i);
        assert forall s :: 0 <= s < |st.scheds| ==> after[s] == after[..|st.scheds|][s];
      } else {
        OldCallsKept(cfg, st, l);
      }
      SameWorkers(st.scheds, after, c, i);
    }
  }

  lemma CallsOfOneMade(cfg: Config, st: State, c: nat, accepts: seq<bool>)
    requires Inv(cfg, st) && Enabled(cfg, st, SchedBaseSchedule(c, accepts))
    ensures CallsAre(cfg, Apply(cfg, st, SchedBaseSchedule(c, accepts)).scheds, c, accepts)
  {
    var after := Apply(cfg, st, SchedBaseSchedule(c, accepts)).scheds;
    assert CaddyShape(st.caddies[c]);
    forall i: nat | i < |cfg.scheds|
      ensures WorksFor(after, c, i) <==> !cfg.scheds[i].Absent? && accepts[i]
    {
      CalledSchedulers(cfg, st, c, accepts, i);
      assert forall s :: 0 <= s < |st.scheds| ==> after[s] == after[..|st.scheds|][s];
    }
  }

  // In every run the schedulers that work for a caddy are exactly those that have a schedule function
  // and accepted when the base called them for it.
  lemma {:induction false} CallsInRun(cfg: Config, ls: seq<Label>, c: nat) returns (k: nat)
    requires Exec(cfg, ls).Some? && c < |Exec(cfg, ls).value.caddies| && Exec(cfg, ls).value.caddies[c].trk.Some?
    ensures k < |ls| && ls[k].SchedBaseSchedule? && ls[k].c == c && |ls[k].accepts| == |cfg.scheds|
    ensures CallsAre(cfg, Exec(cfg, ls).value.scheds, c, ls[k].accepts)
  {
    var n := |ls| - 1;
    var st := Exec(cfg, ls[..n]).value;
    ReachableInv(cfg, ls[..n]);
    if ls[n].SchedBaseSchedule? && ls[n].c == c {
      k := n;
      CallsOfOneMade(cfg, st, c, ls[n].accepts);
    } else {
      TrackersKept(cfg, st, ls[n], c);
      k := CallsInRun(cfg, ls[..n], c);
      CallsOfOthersKept(cfg, st, ls[n], c, ls[k].accepts);
    }
  }

  // ---- What is recorded of a request ----

  // Label k is the arrival of request r.
  predicate ArrivesAt(ls: seq<Label>, k: nat, r: nat) {
    k < |ls| && ls[k].Arrive? && Sum(ls[..k], Arrivals()) == r
  }

  lemma RequestKept(cfg: Config, st: State, l: Label, r: nat)
    requires WellIndexed(st) && Enabled(cfg, st, l) && r < |st.reqs|
    ensures r < |Apply(cfg, st, l).reqs|
    ensures var q, q' := st.reqs[r], Apply(cfg, st, l).reqs[r];
      && q'.infos == q.infos && q'.hasCallback == q.hasCallback
      && (if l.RequestInit? && l.r == r then q.ev.Init? && !q'.ev.Init? && q'.params == Parse(q.infos).params
          else q'.params == q.params && (q'.ev.Init? <==> q.ev.Init?))
  {
  }

  lemma RequestsCounted(cfg: Config, st: State, l: Label)
    requires WellIndexed(st) && Enabled(cfg, st, l)
    ensures |Apply(cfg, st, l).reqs| == |st.reqs| + Bit(l.Arrive?)
  {
  }

  // In every run the requests are the arrivals, in that order, with their directives and callbacks.
  lemma {:induction false} RequestsAreArrivals(cfg: Config, ls: seq<Label>, r: nat)
    requires Exec(cfg, ls).Some?
    ensures |Exec(cfg, ls).value.reqs| == Sum(ls, Arrivals())
    ensures r < |Exec(cfg, ls).value.reqs| ==>
      exists k: nat :: ArrivesAt(ls, k, r)
        && Exec(cfg, ls).value.reqs[r].infos == ls[k].infos
        && Exec(cfg, ls).value.reqs[r].hasCallback == ls[k].hasCallback
  {
    if ls != [] {
      var n := |ls| - 1;
      var st := Exec(cfg, ls[..n]).value;
      RequestsAreArrivals(cfg, ls[..n], r);
      RequestsCounted(cfg, st, ls[n]);
      if r < |st.reqs| {
        var k: nat :| ArrivesAt(ls[..n], k, r)
          && st.reqs[r].infos == ls[..n][k].infos && st.reqs[r].hasCallback == ls[..n][k].hasCallback;
        assert ls[..n][..k] == ls[..k];
        RequestKept(cfg, st, ls[n], r);
        assert ArrivesAt(ls, k, r);
      } else if r < |Exec(cfg, ls).value.reqs| {
        assert ArrivesAt(ls, n, r);
      }
    }
  }

  // Once its directives have been processed, a request has recorded what they describe. Until then it
  // is as its constructor left it.
  lemma {:induction false} RecordedParams(cfg: Config, ls: seq<Label>, r: nat, o: Outcome)
    requires Exec(cfg, ls).Some? && r < |Exec(cfg, ls).value.reqs|
    requires Describes(Exec(cfg, ls).value.reqs[r].infos, o)
    ensures var q := Exec(cfg, ls).value.reqs[r];
            q.params == if q.ev.Init? then Params(0xFFFF_FFFF, 0, 0, 0.0, map[], map[]) else o.params
  {
    var n := |ls| - 1;
    var st := Exec(cfg, ls[..n]).value;
    if r < |st.reqs| {
      RequestKept(cfg, st, ls[n], r);
      RecordedParams(cfg, ls[..n], r, o);
      DescriptionIsUnique(st.reqs[r].infos, o, Parse(st.reqs[r].infos));
    }
  }

  // ---- What an answer holds ----

  lemma AnswerKept(cfg: Config, st: State, l: Label, s: nat)
    requires WellIndexed(st) && Enabled(cfg, st, l) && s < |st.scheds|
    ensures s < |Apply(cfg, st, l).scheds|
    ensures var sc, sc' := st.scheds[s], Apply(cfg, st, l).scheds[s];
      && sc'.fifo == sc.fifo && sc'.order == sc.order
      && (if l.RunScheduler? && l.s == s then sc.ev.Run? && !sc'.ev.Run?
          else sc'.alloc == sc.alloc && (sc'.ev.Run? <==> sc.ev.Run?))
  {
    if l.SchedBaseSchedule? {
      assert Apply(cfg, st, l).scheds[s] == st.scheds[s];
    }
  }

  lemma OtherAnswers(cfg: Config, st: State, l: Label)
    requires WellIndexed(st) && Enabled(cfg, st, l) && l.RunScheduler? && !st.scheds[l.s].fifo
    requires st.scheds[l.s].alloc.None?
    ensures Apply(cfg, st, l).scheds[l.s].alloc
         == if l.answer.Some? then Some(Alloc(st.scheds[l.s].order, l.answer.value)) else None
  {
  }

  lemma NewCallsWait(cfg: Config, st: State, l: Label, s: nat)
    requires WellIndexed(st) && Enabled(cfg, st, l) && |st.scheds| <= s < |Apply(cfg, st, l).scheds|
    ensures Apply(cfg, st, l).scheds[s].ev.Run?
  {
    if l.SchedBaseSchedule? {
      if cfg.scheds != [] {
        CalledSchedulers(cfg, st, l.c, l.accepts, 0);
      }
    } else {
      OldCallsKept(cfg, st, l);
    }
  }

  // An answer is given in this step, or was there before.
  lemma CallWasServed(cfg: Config, st: State, l: Label, s: nat)
    requires Inv(cfg, st) && Enabled(cfg, st, l)
    requires s < |Apply(cfg, st, l).scheds| && !Apply(cfg, st, l).scheds[s].ev.Run?
    ensures s < |st.scheds|
    ensures var sc, sc' := st.scheds[s], Apply(cfg, st, l).scheds[s];
      && sc'.fifo == sc.fifo && sc'.order == sc.order
      && (if l.RunScheduler? && l.s == s
          then !sc.fifo ==> sc'.alloc == (if l.answer.Some? then Some(Alloc(sc.order, l.answer.value)) else None)
          else !sc.ev.Run? && sc'.alloc == sc.alloc)
  {
    if s >= |st.scheds| {
      NewCallsWait(cfg, st, l, s);
      assert false;
    }
    AnswerKept(cfg, st, l, s);
    if l.RunScheduler? && l.s == s && !st.scheds[s].fifo {
      OtherAnswers(cfg, st, l);
    }
  }

  // In every run the answer of a scheduler other than the FIFO is the one it gave when it was served:
  // the nodes of its answer, or nothing.
  lemma {:induction false} AnswersAreGiven(cfg: Config, ls: seq<Label>, s: nat) returns (k: nat)
    requires Exec(cfg, ls).Some? && s < |Exec(cfg, ls).value.scheds| && !Exec(cfg, ls).value.scheds[s].ev.Run?
    ensures k < |ls| && ls[k].RunScheduler? && ls[k].s == s
    ensures var sc := Exec(cfg, ls).value.scheds[s];
      !sc.fifo ==> sc.alloc == if ls[k].answer.Some? then Some(Alloc(sc.order, ls[k].answer.value)) else None
  {
    var n := |ls| - 1;
    ReachableInv(cfg, ls[..n]);
    CallWasServed(cfg, Exec(cfg, ls[..n]).value, ls[n], s);
    if ls[n].RunScheduler? && ls[n].s == s {
      k := n;
    } else {
      k := AnswersAreGiven(cfg, ls[..n], s);
    }
  }

  // Once a scheduler has answered, its answer never changes.
  lemma {:induction false} AnswersStay(cfg: Config, ls: seq<Label>, more: seq<Label>, s: nat)
    requires Exec(cfg, ls).Some? && Exec(cfg, ls + more).Some?
    requires s < |Exec(cfg, ls).value.scheds| && !Exec(cfg, ls).value.scheds[s].ev.Run?
    ensures s < |Exec(cfg, ls + more).value.scheds| && !Exec(cfg, ls + more).value.scheds[s].ev.Run?
    ensures Exec(cfg, ls + more).value.scheds[s].alloc == Exec(cfg, ls).value.scheds[s].alloc
  {
    if more == [] {
      assert ls + more == ls;
    } else {
      var n := |more| - 1;
      var before := ls + more[..n];
      assert ls + more == before + [more[n]];
      PrefixRuns(cfg, before, [more[n]]);
      AnswersStay(cfg, ls, more[..n], s);
      AnswerStays(cfg, before, more[n], s);
    }
  }

  lemma AnswerStays(cfg: Config, ls: seq<Label>, l: Label, s: nat)
    requires Exec(cfg, ls).Some? && Exec(cfg, ls + [l]).Some?
    requires s < |Exec(cfg, ls).value.scheds| && !Exec(cfg, ls).value.scheds[s].ev.Run?
    ensures s < |Exec(cfg, ls + [l]).value.scheds| && !Exec(cfg, ls + [l]).value.scheds[s].ev.Run?
    ensures Exec(cfg, ls + [l]).value.scheds[s].alloc == Exec(cfg, ls).value.scheds[s].alloc
  {
    assert (ls + [l])[..|ls|] == ls;
    AnswerKept(cfg, Exec(cfg, ls).value, l, s);
  }

  // When the FIFO serves a scheduler caddy, with an available count that does not exceed the pool, it
  // answers exactly if the directives of the first request that ever reached it ask for fewer nodes than
  // are available. The answer then has as many nodes as the directives of the round's own request ask
  // for exactly when that is what the first one's ask for, or the whole pool if those ask for none.
  lemma {:induction false} FifoSizeIsTheHeads(cfg: Config, ls: seq<Label>, l: Label, own: Outcome, head: Outcome)
    requires Exec(cfg, ls).Some? && WellIndexed(Exec(cfg, ls).value) && Enabled(cfg, Exec(cfg, ls).value, l)
    requires l.RunScheduler? && Exec(cfg, ls).value.scheds[l.s].fifo && l.avail <= |FifoNodes.Live(l.pool)|
    requires Describes(Exec(cfg, ls).value.reqs[RoundRequest(Exec(cfg, ls).value, l.s)].infos, own)
    requires FifoHead(cfg, ls, l.s) < |Exec(cfg, ls).value.reqs|
    requires Describes(Exec(cfg, ls).value.reqs[FifoHead(cfg, ls, l.s)].infos, head)
    ensures var answer := Apply(cfg, Exec(cfg, ls).value, l).scheds[l.s].alloc;
      && (answer.Some? <==> head.params.numNodes < l.avail)
      && (answer.Some? ==>
            (|answer.value.nodes| == own.params.numNodes <==>
               own.params.numNodes ==
                 if 1 <= head.params.numNodes then head.params.numNodes else |FifoNodes.Live(l.pool)|))
  {
    var st := Exec(cfg, ls).value;
    FifoAnswersForItsHead(cfg, ls, l);
    FifoIsArrivals(cfg, ls);
    ServedIsParsed(cfg, ls, l);
    RecordedParams(cfg, ls, RoundRequest(st, l.s), own);
    RecordedParams(cfg, ls, FifoHead(cfg, ls, l.s), head);
  }

  // The requests that the FIFO deals with have had their directives processed.
  lemma ServedIsParsed(cfg: Config, ls: seq<Label>, l: Label)
    requires Exec(cfg, ls).Some? && WellIndexed(Exec(cfg, ls).value) && Enabled(cfg, Exec(cfg, ls).value, l)
    requires l.RunScheduler? && Exec(cfg, ls).value.scheds[l.s].fifo
    ensures var st := Exec(cfg, ls).value;
      && !st.reqs[RoundRequest(st, l.s)].ev.Init?
      && FifoHead(cfg, ls, l.s) < |st.reqs| && !st.reqs[FifoHead(cfg, ls, l.s)].ev.Init?
  {
    var st := Exec(cfg, ls).value;
    ReachableInv(cfg, ls);
    FifoIsArrivals(cfg, ls);
    HasMetaIsParsed(cfg, st, st.caddies[st.scheds[l.s].trk].mt);
    if st.fifo != [] {
      QueuedIsParsed(cfg, st);
    }
  }

  lemma HasMetaIsParsed(cfg: Config, st: State, m: nat)
    requires Inv(cfg, st) && m < |st.metas|
    ensures !st.reqs[st.metas[m].req].ev.Init?
  {
    var r := st.metas[m].req;
    assert ReqLawAt(st.reqs, st.metas, st.fifo, st.table, r);
    SumAtLeast(st.metas, m, MetaOf(r));
  }

  lemma QueuedIsParsed(cfg: Config, st: State)
    requires Inv(cfg, st) && st.fifo != []
    ensures !st.reqs[st.fifo[0]].ev.Init?
  {
    var r := st.fifo[0];
    assert ReqLawAt(st.reqs, st.metas, st.fifo, st.table, r);
    InFifo(st.fifo, r);
  }

  // ---- What status results ----

  // Serving l finds that every module that is called for request r has a schedule function and refuses.
  ghost predicate Refuses(cfg: Config, st: State, l: Label, r: nat) {
    && WellIndexed(st) && Enabled(cfg, st, l)
    && match l
       case MetaBaseSchedule(x, accepts) => x == r && forall i :: 0 <= i < |cfg.metas| ==> cfg.metas[i] && !accepts[i]
       case SchedBaseSchedule(c, accepts) =>
         && st.metas[st.caddies[c].mt].req == r
         && forall i :: 0 <= i < |cfg.scheds| ==> !cfg.scheds[i].Absent? && !accepts[i]
       case _ => false
  }

  // Serving l chooses an allocation for request r.
  ghost predicate Assigns(cfg: Config, st: State, l: Label, r: nat) {
    && WellIndexed(st) && Enabled(cfg, st, l) && l.PriCallback?
    && st.caddies[l.c].flag && st.caddies[l.c].allocations != [] && st.metas[st.caddies[l.c].mt].req == r
  }

  lemma StatusAfterStep(cfg: Config, st: State, l: Label, r: nat)
    requires WellIndexed(st) && Enabled(cfg, st, l) && r < |st.reqs|
    ensures r < |Apply(cfg, st, l).reqs|
    ensures Apply(cfg, st, l).reqs[r].status
         == if Refuses(cfg, st, l, r) then NotAvailable
            else if Assigns(cfg, st, l, r) then Success
            else st.reqs[r].status
    ensures !(Refuses(cfg, st, l, r) && Assigns(cfg, st, l, r))
  {
    match l
    case MetaBaseSchedule(_, accepts) => FanMetasRefused(cfg.metas, accepts, |st.metas|, |cfg.metas|);
    case SchedBaseSchedule(c, accepts) =>
      FanSchedsRefused(cfg.scheds, accepts, c, st.metas[st.caddies[c].mt].req, |cfg.scheds|);
    case PriCallback(c) => BestIsLeast(st.caddies[c].allocations);
    case _ =>
  }

  lemma NewStatus(cfg: Config, st: State, l: Label)
    requires WellIndexed(st) && Enabled(cfg, st, l) && |st.reqs| < |Apply(cfg, st, l).reqs|
    ensures Apply(cfg, st, l).reqs[|st.reqs|].status == NotSupported
  {
  }

  // The status that a request has, or will have when it arrives.
  function StatusOf(st: State, r: nat): Status {
    if r < |st.reqs| then st.reqs[r].status else NotSupported
  }

  lemma StatusStep(cfg: Config, st: State, l: Label, r: nat)
    requires WellIndexed(st) && Enabled(cfg, st, l)
    ensures StatusOf(Apply(cfg, st, l), r)
         == if Refuses(cfg, st, l, r) then NotAvailable
            else if Assigns(cfg, st, l, r) then Success
            else StatusOf(st, r)
  {
    RequestsCounted(cfg, st, l);
    if r < |st.reqs| {
      StatusAfterStep(cfg, st, l, r);
    } else if r == |st.reqs| && l.Arrive? {
      NewStatus(cfg, st, l);
    }
  }

  // What the last step of a run that refused request r, or gave it an allocation, makes of its status.
  ghost function LastWritten(cfg: Config, ls: seq<Label>, r: nat): Status
    requires Exec(cfg, ls).Some?
  {
    if ls == [] then NotSupported
    else
      var n := |ls| - 1;
      var before := Exec(cfg, ls[..n]).value;
      if Refuses(cfg, before, ls[n], r) then NotAvailable
      else if Assigns(cfg, before, ls[n], r) then Success
      else LastWritten(cfg, ls[..n], r)
  }

  // In every run that is the status of a request. Without such a step it is not supported, as at first.
  lemma {:induction false} StatusInRun(cfg: Config, ls: seq<Label>, r: nat)
    requires Exec(cfg, ls).Some?
    ensures StatusOf(Exec(cfg, ls).value, r) == LastWritten(cfg, ls, r)
  {
    if ls != [] {
      var n := |ls| - 1;
      StatusInRun(cfg, ls[..n], r);
      StatusStep(cfg, Exec(cfg, ls[..n]).value, ls[n], r);
    }
  }
}
