// Runs in which the round does not do what one would expect of it.
module RoundExamples {
  import opened Sums
  import opened Directives
  import opened Round
  import opened RoundTheorems
  import opened RoundOutcome
  import FifoNodes

  // Serving l takes the daemon from st to st'.
  ghost predicate Goes(cfg: Config, st: State, l: Label, st': State) {
    WellIndexed(st) && Enabled(cfg, st, l) && Apply(cfg, st, l) == st'
  }

  // A run with all the states that it goes through.
  lemma {:induction false} RunOf(cfg: Config, ls: seq<Label>, at: seq<State>, n: nat)
    requires n <= |ls| && |at| == |ls| + 1 && at[0] == INITIAL
    requires forall i :: 0 <= i < |ls| ==> Goes(cfg, at[i], ls[i], at[i + 1])
    ensures Exec(cfg, ls[..n]) == Some(at[n])
  {
    if n == 0 {
      assert ls[..0] == [];
    } else {
      RunOf(cfg, ls, at, n - 1);
      assert Goes(cfg, at[n - 1], ls[n - 1], at[n]);
      OneMore(cfg, ls, n, at[n - 1]);
    }
  }

  lemma OneMore(cfg: Config, ls: seq<Label>, n: nat, st: State)
    requires 0 < n <= |ls| && Exec(cfg, ls[..n - 1]) == Some(st) && WellIndexed(st) && Enabled(cfg, st, ls[n - 1])
    ensures Exec(cfg, ls[..n]) == Some(Apply(cfg, st, ls[n - 1]))
  {
    assert ls[..n][..n - 1] == ls[..n - 1];
  }

  // ---- Requests that ask for some number of nodes ----

  function Wanting(n: nat): seq<Info> { [NumNodes(Good(n))] }

  lemma LastOfOne<T>(i: Info, sel: Info -> Option<T>, default: T)
    ensures LastOf([i], sel, default) == if sel(i).Some? then sel(i).value else default
  {
    assert [i][..0] == [];
  }

  lemma ParseWanting(n: nat)
    requires n < 3
    ensures Parse(Wanting(n)) == Outcome(0, false, NO_PARAMS.(numNodes := n))
  {
    var i, o := NumNodes(Good(n)), Outcome(0, false, NO_PARAMS.(numNodes := n));
    assert ToInt32(n) == n;
    LastOfOne(i, SessionIn(), NO_SESSION);
    LastOfOne(i, NodesIn(), 0);
    LastOfOne(i, CpusIn(), 0);
    LastOfOne(i, MemoryIn(), 0.0);
    forall k: TextKey ensures Lookup(o.params.texts, k) == LastOf([i], TextIn(k), None) {
      LastOfOne(i, TextIn(k), None);
    }
    forall k: FlagKey ensures Lookup(o.params.flags, k) == LastOf([i], FlagIn(k), None) {
      LastOfOne(i, FlagIn(k), None);
    }
    assert [i][1..] == [];
    DescriptionIsUnique([i], Parse([i]), o);
  }

  // A request for n nodes as it arrives, and once its directives have been recorded.
  function Fresh(n: nat): Req {
    Req(Init, 1, -1, Wanting(n), true, NO_PARAMS, NotSupported, None, [])
  }

  function Known(n: nat, ev: ReqEvent, refs: int, index: int): Req {
    Req(ev, refs, index, Wanting(n), true, NO_PARAMS.(numNodes := n), NotSupported, None, [])
  }

  // ---- Every meta module refuses ----

  const REFUSING := Config([true], [])

  const REFUSED_RUN: seq<Label> :=
    [Arrive(Wanting(1), true), RequestInit(0, 0), MetaBaseSchedule(0, [false]), MetaBaseCallback(0)]

  function Own(live: bool): Caddy {
    Caddy(if live then MetaBase else CaddyEvent.Idle, live, 0, false, CaddyEvent.Idle, None, [])
  }

  const REFUSED_STATES: seq<State> :=
    [INITIAL,
     State([Fresh(1)], [], [], [], [], []),
     State([Known(1, MetaSchedule, 1, 0)], [], [], [], [], [Some(0)]),
     State([Known(1, ReqEvent.Idle, 2, 0).(status := NotAvailable)], [Meta(true, 1, 1, 0, 0)], [Own(true)], [], [],
           [Some(0)]),
     State([Known(1, ReqEvent.Idle, 2, 0).(status := NotAvailable)], [Meta(true, 1, 2, 0, 0)], [Own(false)], [], [],
           [Some(0)])]

  lemma RefusedStep(i: nat)
    requires i < 4
    ensures Goes(REFUSING, REFUSED_STATES[i], REFUSED_RUN[i], REFUSED_STATES[i + 1])
  {
    ParseWanting(1);
  }

  // Nothing is queued any more, the directives were fine, the requestor waits, and it has not been
  // told anything. The request's table slot is still taken.
  lemma NeverAnswered()
    ensures Exec(REFUSING, REFUSED_RUN).Some?
    ensures var st := Exec(REFUSING, REFUSED_RUN).value;
      && Drained(st) && |st.reqs| == 1 && st.reqs[0].hasCallback && NotWaiting !in st.reqs[0].infos
      && FirstError(st.reqs[0].infos) == 0 && st.reqs[0].replies == [] && st.table == [Some(0)]
  {
    forall i | 0 <= i < 4 ensures Goes(REFUSING, REFUSED_STATES[i], REFUSED_RUN[i], REFUSED_STATES[i + 1]) {
      RefusedStep(i);
    }
    RunOf(REFUSING, REFUSED_RUN, REFUSED_STATES, 4);
    assert REFUSED_RUN[..4] == REFUSED_RUN;
    FirstErrorIsFirst(Wanting(1));
  }

  // ---- An allocation that is reported as unavailable ----

  const TWO_METAS := Config([true, true], [Other])

  // The scheduler answers the first meta module with an allocation and refuses the second, and then both
  // meta modules respond.
  const SPOILED_RUN: seq<Label> :=
    [Arrive(Wanting(1), true), RequestInit(0, 0), MetaBaseSchedule(0, [true, true]), PriSchedule(0),
     SchedBaseSchedule(0, [true]), RunScheduler(0, [], 0, Some([7])), SchedBaseCallback(0), PriCallback(0),
     PriSchedule(1), SchedBaseSchedule(1, [false]), PriCallback(1), MetaBaseCallback(0), MetaBaseCallback(1)]

  const GIVEN := Alloc(1, [7])

  function Untracked(flag: bool, ev: CaddyEvent): Caddy {
    Caddy(ev, true, 0, flag, if ev.PriSched? then CaddyEvent.Idle else PriChoose, None, [])
  }

  function Tracked(flag: bool, ev: CaddyEvent, nresponded: nat, allocations: seq<Alloc>): Caddy {
    Caddy(ev, true, 0, flag, PriChoose, Some(Tracker(1, nresponded)), allocations)
  }

  function Answering(ev: SchedEvent): SchedCaddy {
    SchedCaddy(ev, 1, 0, 0, if ev.Run? then None else Some(GIVEN), false, 0)
  }

  function Assigned(status: Status): Req {
    Known(1, ReqEvent.Idle, 2, 0).(status := status, allocation := Some(GIVEN))
  }

  // A state after the fan-out to the two meta modules, n of which have responded.
  function Counted(n: nat, q: Req, first: Caddy, second: Caddy, scheds: seq<SchedCaddy>): State {
    State([q], [Meta(n < 2, 2, n, 0, 2)], [first, second], scheds, [], [if n < 2 then Some(0) else None])
  }

  // None of which has responded.
  function During(q: Req, first: Caddy, second: Caddy, scheds: seq<SchedCaddy>): State {
    Counted(0, q, first, second, scheds)
  }

  function Done(cd: Caddy): Caddy {
    cd.(ev := CaddyEvent.Idle, live := false)
  }

  function Told(q: Req): Req {
    Called(q, Complete, q.status).(refs := q.refs - 2)
  }

  const SPOILED_STATES: seq<State> :=
    [INITIAL,
     State([Fresh(1)], [], [], [], [], []),
     State([Known(1, MetaSchedule, 1, 0)], [], [], [], [], [Some(0)]),
     During(Known(1, ReqEvent.Idle, 2, 0), Untracked(true, PriSched), Untracked(false, PriSched), []),
     During(Known(1, ReqEvent.Idle, 2, 0), Untracked(true, SchedBase), Untracked(false, PriSched), []),
     During(Known(1, ReqEvent.Idle, 2, 0), Tracked(true, CaddyEvent.Idle, 0, []), Untracked(false, PriSched),
            [Answering(Run)]),
     During(Known(1, ReqEvent.Idle, 2, 0), Tracked(true, CaddyEvent.Idle, 0, []), Untracked(false, PriSched),
            [Answering(Respond)]),
     During(Known(1, ReqEvent.Idle, 2, 0), Tracked(true, PriChoose, 1, [GIVEN]), Untracked(false, PriSched),
            [Answering(SchedEvent.Idle)]),
     During(Assigned(Success), Tracked(true, MetaBase, 1, [GIVEN]), Untracked(false, PriSched),
            [Answering(SchedEvent.Idle)]),
     During(Assigned(Success), Tracked(true, MetaBase, 1, [GIVEN]), Untracked(false, SchedBase),
            [Answering(SchedEvent.Idle)]),
     Second(Assigned(NotAvailable), Tracked(false, PriChoose, 1, [])),
     Second(Assigned(NotAvailable), Tracked(false, MetaBase, 1, [])),
     Counted(1, Assigned(NotAvailable), Done(Tracked(true, MetaBase, 1, [GIVEN])), Tracked(false, MetaBase, 1, []),
             [Answering(SchedEvent.Idle)]),
     Counted(2, Told(Assigned(NotAvailable)), Done(Tracked(true, MetaBase, 1, [GIVEN])),
             Done(Tracked(false, MetaBase, 1, [])), [Answering(SchedEvent.Idle)])]

  lemma FanOutToTwo(i: nat)
    requires i < 3
    ensures Goes(TWO_METAS, SPOILED_STATES[i], SPOILED_RUN[i], SPOILED_STATES[i + 1])
  {
    ParseWanting(1);
    assert FanMetas([true, true], [true, true], 0, 1).created == [Untracked(true, PriSched)];
  }

  lemma PassOnFirst(q: Req, second: Caddy)
    requires second.mt == 0
    ensures Goes(TWO_METAS, During(q, Untracked(true, PriSched), second, []), PriSchedule(0),
                 During(q, Untracked(true, SchedBase), second, []))
  {
  }

  lemma CallForFirst(q: Req, second: Caddy)
    requires second.mt == 0
    ensures Goes(TWO_METAS, During(q, Untracked(true, SchedBase), second, []), SchedBaseSchedule(0, [true]),
                 During(q, Tracked(true, CaddyEvent.Idle, 0, []), second, [Answering(Run)]))
  {
    assert FanScheds([Other], [true], 0, 0, 1) == SchedFan([Answering(Run)], 0, 2);
  }

  lemma Answer(q: Req, first: Caddy, second: Caddy)
    requires first.trk.Some? && first.mt == 0 == second.mt
    ensures Goes(TWO_METAS, During(q, first, second, [Answering(Run)]), RunScheduler(0, [], 0, Some([7])),
                 During(q, first, second, [Answering(Respond)]))
  {
  }

  lemma Collect(q: Req, second: Caddy)
    requires second.mt == 0
    ensures Goes(TWO_METAS, During(q, Tracked(true, CaddyEvent.Idle, 0, []), second, [Answering(Respond)]),
                 SchedBaseCallback(0),
                 During(q, Tracked(true, PriChoose, 1, [GIVEN]), second, [Answering(SchedEvent.Idle)]))
  {
    assert [] + [GIVEN] == [GIVEN];
    var st := During(q, Tracked(true, CaddyEvent.Idle, 0, []), second, [Answering(Respond)]);
    var st' := DoSchedBaseCallback(st, 0);
    assert st'.caddies[0] == Tracked(true, PriChoose, 1, [GIVEN]);
    assert st'.scheds[0] == Answering(SchedEvent.Idle);
  }

  lemma Choose(second: Caddy)
    requires second.mt == 0
    ensures Goes(TWO_METAS, During(Known(1, ReqEvent.Idle, 2, 0), Tracked(true, PriChoose, 1, [GIVEN]), second,
                                   [Answering(SchedEvent.Idle)]),
                 PriCallback(0),
                 During(Assigned(Success), Tracked(true, MetaBase, 1, [GIVEN]), second, [Answering(SchedEvent.Idle)]))
  {
    assert [GIVEN][..0] == [] && Best([GIVEN]) == Some(GIVEN);
  }

  // The first caddy is done choosing.
  function Second(q: Req, second: Caddy): State {
    During(q, Tracked(true, MetaBase, 1, [GIVEN]), second, [Answering(SchedEvent.Idle)])
  }

  lemma PassOnSecond()
    ensures Goes(TWO_METAS, Second(Assigned(Success), Untracked(false, PriSched)), PriSchedule(1),
                 Second(Assigned(Success), Untracked(false, SchedBase)))
  {
  }

  lemma NobodyCalled()
    ensures FanScheds([Other], [false], 1, 0, 1) == SchedFan([], 1, 2)
  {
    assert FanScheds([Other], [false], 1, 0, 0) == SchedFan([], 0, 1);
  }

  lemma FirstReplaced<T>(a: T, b: T)
    ensures [a][0 := b] == [b]
  {
  }

  lemma SecondReplaced<T>(a: T, b: T, c: T)
    ensures [a, b][1 := c] == [a, c]
  {
  }

  lemma OneOfTwoReplaced<T>(a: T, b: T, c: T)
    ensures [a, b][0 := c] == [c, b]
  {
  }

  lemma NobodyTakes(cfg: Config, st: State, c: nat, accepts: seq<bool>)
    requires c < |st.caddies| && |accepts| == |cfg.scheds| && WellIndexed(st)
    requires var f := FanScheds(cfg.scheds, accepts, c, st.metas[st.caddies[c].mt].req, |cfg.scheds|);
             f.created == [] && f.refused == |cfg.scheds|
    ensures var cd, r := st.caddies[c], st.metas[st.caddies[c].mt].req;
            var n := |cfg.scheds|;
            DoSchedBaseSchedule(cfg, st, c, accepts)
            == st.(reqs := st.reqs[r := st.reqs[r].(status := NotAvailable)],
                   caddies := st.caddies[c := cd.(trk := Some(Tracker(n, n)), ev := cd.evcbfunc)])
  {
    assert st.scheds + [] == st.scheds;
  }

  // The scheduler refuses whatever caddy comes second.
  lemma RefusedBy(q: Req, first: Caddy, second: Caddy, scheds: seq<SchedCaddy>)
    requires WellIndexed(During(q, first, second, scheds)) && second.mt == 0
    ensures DoSchedBaseSchedule(TWO_METAS, During(q, first, second, scheds), 1, [false])
         == During(q.(status := NotAvailable), first,
                   second.(trk := Some(Tracker(1, 1)), ev := second.evcbfunc), scheds)
  {
    NobodyCalled();
    NobodyTakes(TWO_METAS, During(q, first, second, scheds), 1, [false]);
    SecondReplaced(first, second, second.(trk := Some(Tracker(1, 1)), ev := second.evcbfunc));
    FirstReplaced(q, q.(status := NotAvailable));
  }

  lemma RefuseAny(q: Req, first: Caddy, second: Caddy, scheds: seq<SchedCaddy>)
    requires WellIndexed(During(q, first, second, scheds)) && second.ev.SchedBase? && second.mt == 0
    ensures Goes(TWO_METAS, During(q, first, second, scheds), SchedBaseSchedule(1, [false]),
                 During(q.(status := NotAvailable), first,
                        second.(trk := Some(Tracker(1, 1)), ev := second.evcbfunc), scheds))
  {
    RefusedBy(q, first, second, scheds);
    var st := During(q, first, second, scheds);
    assert st.caddies[1] == second;
    assert Enabled(TWO_METAS, st, SchedBaseSchedule(1, [false]));
  }

  lemma RefuseSecond()
    ensures Goes(TWO_METAS, Second(Assigned(Success), Untracked(false, SchedBase)), SchedBaseSchedule(1, [false]),
                 Second(Assigned(NotAvailable), Tracked(false, PriChoose, 1, [])))
  {
    RefuseAny(Assigned(Success), Tracked(true, MetaBase, 1, [GIVEN]), Untracked(false, SchedBase),
              [Answering(SchedEvent.Idle)]);
  }

  // The second caddy, without the flag and without an answer.
  lemma ChooseNothing(q: Req, first: Caddy, second: Caddy, scheds: seq<SchedCaddy>)
    requires WellIndexed(During(q, first, second, scheds)) && second.ev.PriChoose? && !second.flag
    ensures Goes(TWO_METAS, During(q, first, second, scheds), PriCallback(1),
                 During(q, first, second.(ev := MetaBase), scheds))
  {
    SecondReplaced(first, second, second.(ev := MetaBase));
    var st := During(q, first, second, scheds);
    assert st.caddies[1] == second;
    assert Enabled(TWO_METAS, st, PriCallback(1));
  }

  lemma RespondFirst(q: Req, first: Caddy, second: Caddy, scheds: seq<SchedCaddy>)
    requires WellIndexed(During(q, first, second, scheds)) && first.ev.MetaBase? && first.mt == 0
    ensures Goes(TWO_METAS, During(q, first, second, scheds), MetaBaseCallback(0),
                 Counted(1, q, Done(first), second, scheds))
  {
    OneOfTwoReplaced(first, second, Done(first));
    FirstReplaced(Meta(true, 2, 0, 0, 2), Meta(true, 2, 1, 0, 2));
    var st := During(q, first, second, scheds);
    assert st.caddies[0] == first;
    assert Enabled(TWO_METAS, st, MetaBaseCallback(0));
  }

  lemma RespondSecond(q: Req, first: Caddy, second: Caddy, scheds: seq<SchedCaddy>)
    requires WellIndexed(Counted(1, q, first, second, scheds)) && second.ev.MetaBase? && second.mt == 0 == q.index
    ensures Goes(TWO_METAS, Counted(1, q, first, second, scheds), MetaBaseCallback(1),
                 Counted(2, Told(q), first, Done(second), scheds))
  {
    SecondReplaced(first, second, Done(second));
    FirstReplaced(Meta(true, 2, 1, 0, 2), Meta(false, 2, 2, 0, 2));
    FirstReplaced(q, Told(q));
    FirstReplaced(Some(0 as nat), None);
    var st := Counted(1, q, first, second, scheds);
    assert st.caddies[1] == second;
    assert Enabled(TWO_METAS, st, MetaBaseCallback(1));
  }

  lemma LastStep(i: nat)
    requires 10 <= i < 13
    ensures Goes(TWO_METAS, SPOILED_STATES[i], SPOILED_RUN[i], SPOILED_STATES[i + 1])
  {
    var q, first := Assigned(NotAvailable), Tracked(true, MetaBase, 1, [GIVEN]);
    var scheds := [Answering(SchedEvent.Idle)];
    if i == 10 {
      ChooseNothing(q, first, Tracked(false, PriChoose, 1, []), scheds);
    } else if i == 11 {
      RespondFirst(q, first, Tracked(false, MetaBase, 1, []), scheds);
    } else {
      RespondSecond(q, Done(first), Tracked(false, MetaBase, 1, []), scheds);
    }
  }

  lemma SpoiledStep(i: nat)
    requires i < 13
    ensures Goes(TWO_METAS, SPOILED_STATES[i], SPOILED_RUN[i], SPOILED_STATES[i + 1])
  {
    var q, second := Known(1, ReqEvent.Idle, 2, 0), Untracked(false, PriSched);
    if i < 3 {
      FanOutToTwo(i);
    } else if i == 3 {
      PassOnFirst(q, second);
    } else if i == 4 {
      CallForFirst(q, second);
    } else if i == 5 {
      Answer(q, Tracked(true, CaddyEvent.Idle, 0, []), second);
    } else if i == 6 {
      Collect(q, second);
    } else if i == 7 {
      Choose(second);
    } else if i == 8 {
      PassOnSecond();
    } else if i == 9 {
      RefuseSecond();
    } else {
      LastStep(i);
    }
  }

  // The request holds the scheduler's allocation, and its requestor has been told that there is none.
  lemma AllocatedButUnavailable()
    ensures Exec(TWO_METAS, SPOILED_RUN).Some?
    ensures var st := Exec(TWO_METAS, SPOILED_RUN).value;
      && Drained(st) && |st.reqs| == 1 && st.reqs[0].allocation == Some(GIVEN)
      && st.reqs[0].replies == [Reply(Complete, NotAvailable)]
  {
    forall i | 0 <= i < 13 ensures Goes(TWO_METAS, SPOILED_STATES[i], SPOILED_RUN[i], SPOILED_STATES[i + 1]) {
      SpoiledStep(i);
    }
    RunOf(TWO_METAS, SPOILED_RUN, SPOILED_STATES, 13);
    assert SPOILED_RUN[..13] == SPOILED_RUN;
  }

  // ---- An answer of the wrong size ----

  const FIFO_ONLY := Config([true], [Fifo])

  // Three nodes, all available.
  const POOL: FifoNodes.Pool := [Some(10), Some(11), Some(12)]

  lemma Extend(cfg: Config, ls: seq<Label>, st: State, l: Label, st': State)
    requires Exec(cfg, ls) == Some(st) && Goes(cfg, st, l, st')
    ensures Exec(cfg, ls + [l]) == Some(st')
  {
    assert (ls + [l])[..|ls|] == ls;
  }

  lemma LastReplaced<T>(s: seq<T>, a: T, b: T)
    ensures (s + [a])[|s|] == a && (s + [a])[|s| := b] == s + [b]
  {
  }

  // Another request, its meta object and its caddy.
  function With(st: State, q: Req, metas: seq<Meta>, caddies: seq<Caddy>, table: seq<Option<nat>>): State {
    st.(reqs := st.reqs + [q], metas := st.metas + metas, caddies := st.caddies + caddies, table := st.table + table)
  }

  function MetaFor(st: State): Meta {
    Meta(true, 1, 0, |st.reqs|, 1)
  }

  function CaddyFor(st: State, ev: CaddyEvent, trk: Option<Tracker>): Caddy {
    Caddy(ev, true, |st.metas|, true, if ev.PriSched? then CaddyEvent.Idle else PriChoose, trk, [])
  }

  lemma NewArrives(st: State, n: nat)
    requires WellIndexed(st) && n < 3
    ensures var r := |st.reqs|;
            && Goes(FIFO_ONLY, st, Arrive(Wanting(n), true), With(st, Fresh(n), [], [], []))
            && Goes(FIFO_ONLY, With(st, Fresh(n), [], [], []), RequestInit(r, |st.table|),
                    With(st, Known(n, MetaSchedule, 1, |st.table|), [], [], [Some(r)]))
  {
    ParseWanting(n);
    LastReplaced(st.reqs, Fresh(n), Known(n, MetaSchedule, 1, |st.table|));
    assert With(st, Fresh(n), [], [], []).table == st.table;
  }

  lemma NewFansOut(st: State, n: nat)
    requires WellIndexed(st)
    ensures var r, q := |st.reqs|, Known(n, ReqEvent.Idle, 2, |st.table|);
            Goes(FIFO_ONLY, With(st, Known(n, MetaSchedule, 1, |st.table|), [], [], [Some(r)]),
                 MetaBaseSchedule(r, [true]),
                 With(st, q, [MetaFor(st)], [CaddyFor(st, PriSched, None)], [Some(r)]))
  {
    var q := Known(n, MetaSchedule, 1, |st.table|);
    var now := With(st, q, [], [], [Some(|st.reqs|)]);
    LastReplaced(st.reqs, q, Known(n, ReqEvent.Idle, 2, |st.table|));
    assert FanMetas([true], [true], |st.metas|, 1).created == [CaddyFor(st, PriSched, None)];
    assert now.metas == st.metas && now.caddies == st.caddies;
  }

  lemma NewIsPassedOn(st: State, q: Req)
    requires WellIndexed(st)
    ensures Goes(FIFO_ONLY, With(st, q, [MetaFor(st)], [CaddyFor(st, PriSched, None)], [Some(|st.reqs|)]),
                 PriSchedule(|st.caddies|),
                 With(st, q, [MetaFor(st)], [CaddyFor(st, SchedBase, None)], [Some(|st.reqs|)]))
  {
    LastReplaced(st.caddies, CaddyFor(st, PriSched, None), CaddyFor(st, SchedBase, None));
  }

  // The daemon once the FIFO has been called for the new request.
  function Serving(st: State, q: Req, sc: SchedCaddy): State {
    With(st, q, [MetaFor(st)], [CaddyFor(st, CaddyEvent.Idle, Some(Tracker(1, 0)))], [Some(|st.reqs|)])
      .(scheds := st.scheds + [sc])
  }

  function ForFifo(st: State): SchedCaddy {
    SchedCaddy(Run, 1, |st.reqs|, |st.caddies|, None, true, 0)
  }

  lemma FifoIsCalled(st: State, q: Req)
    requires WellIndexed(st)
    ensures Goes(FIFO_ONLY, With(st, q, [MetaFor(st)], [CaddyFor(st, SchedBase, None)], [Some(|st.reqs|)]),
                 SchedBaseSchedule(|st.caddies|, [true]), Serving(st, q, ForFifo(st)))
  {
    LastReplaced(st.caddies, CaddyFor(st, SchedBase, None), CaddyFor(st, CaddyEvent.Idle, Some(Tracker(1, 0))));
    assert FanScheds([Fifo], [true], |st.caddies|, |st.reqs|, 1) == SchedFan([ForFifo(st)], 0, 2);
  }

  // The request at the head of the list asks for one node, and that is what the new one gets.
  lemma FifoAnswers(st: State, n: nat)
    requires WellIndexed(st)
    requires if st.fifo == [] then n == 1 else st.reqs[st.fifo[0]].params.numNodes == 1
    ensures var r, q := |st.reqs|, Known(n, ReqEvent.Idle, 2, |st.table|);
            var head := if st.fifo == [] then r else st.fifo[0];
            Goes(FIFO_ONLY, Serving(st, q, ForFifo(st)), RunScheduler(|st.scheds|, POOL, 3, None),
                 Serving(st, q.(refs := 3), ForFifo(st).(ev := Respond, req := head, alloc := Some(Alloc(1, [10]))))
                   .(fifo := st.fifo + [r]))
  {
    var q := Known(n, ReqEvent.Idle, 2, |st.table|);
    LastReplaced(st.reqs, q, q.(refs := 3));
    var head := if st.fifo == [] then |st.reqs| else st.fifo[0];
    LastReplaced(st.scheds, ForFifo(st), ForFifo(st).(ev := Respond, req := head, alloc := Some(Alloc(1, [10]))));
    OneOfThePool();
  }

  lemma OneOfThePool()
    ensures FifoNodes.Pick(POOL, 1) == [10]
  {
    assert POOL[..2] == [Some(10), Some(11)] && POOL[..2][..1] == [Some(10)] && [Some(10 as nat)][..0] == [];
    assert FifoNodes.Live(POOL[..2][..1]) == [10];
    assert FifoNodes.Live(POOL[..2]) == [10, 11];
  }

  // A round for a request for n nodes, as far as the FIFO's answer.
  lemma FifoRound(ls: seq<Label>, st: State, n: nat) returns (ls': seq<Label>, st': State)
    requires Exec(FIFO_ONLY, ls) == Some(st) && WellIndexed(st) && n < 3
    requires if st.fifo == [] then n == 1 else st.reqs[st.fifo[0]].params.numNodes == 1
    ensures Exec(FIFO_ONLY, ls') == Some(st') && WellIndexed(st')
    ensures var r := |st.reqs|;
      && |st'.reqs| == r + 1 && st'.reqs[..r] == st.reqs && st'.reqs[r].params.numNodes == n
      && st'.fifo == st.fifo + [r] && |st'.scheds| == |st.scheds| + 1
      && RoundRequest(st', |st.scheds|) == r && st'.scheds[|st.scheds|].alloc == Some(Alloc(1, [10]))
  {
    var r, q := |st.reqs|, Known(n, ReqEvent.Idle, 2, |st.table|);
    var head := if st.fifo == [] then r else st.fifo[0];
    var answered := ForFifo(st).(ev := Respond, req := head, alloc := Some(Alloc(1, [10])));
    NewArrives(st, n);
    NewFansOut(st, n);
    NewIsPassedOn(st, q);
    FifoIsCalled(st, q);
    FifoAnswers(st, n);
    var s1, s2 := With(st, Fresh(n), [], [], []), With(st, Known(n, MetaSchedule, 1, |st.table|), [], [], [Some(r)]);
    var s3 := With(st, q, [MetaFor(st)], [CaddyFor(st, PriSched, None)], [Some(r)]);
    var s4 := With(st, q, [MetaFor(st)], [CaddyFor(st, SchedBase, None)], [Some(r)]);
    var s5 := Serving(st, q, ForFifo(st));
    st' := Serving(st, q.(refs := 3), answered).(fifo := st.fifo + [r]);
    Extend(FIFO_ONLY, ls, st, Arrive(Wanting(n), true), s1);
    ls' := ls + [Arrive(Wanting(n), true)];
    Extend(FIFO_ONLY, ls', s1, RequestInit(r, |st.table|), s2);
    ls' := ls' + [RequestInit(r, |st.table|)];
    Extend(FIFO_ONLY, ls', s2, MetaBaseSchedule(r, [true]), s3);
    ls' := ls' + [MetaBaseSchedule(r, [true])];
    Extend(FIFO_ONLY, ls', s3, PriSchedule(|st.caddies|), s4);
    ls' := ls' + [PriSchedule(|st.caddies|)];
    Extend(FIFO_ONLY, ls', s4, SchedBaseSchedule(|st.caddies|, [true]), s5);
    ls' := ls' + [SchedBaseSchedule(|st.caddies|, [true])];
    Extend(FIFO_ONLY, ls', s5, RunScheduler(|st.scheds|, POOL, 3, None), st');
    ls' := ls' + [RunScheduler(|st.scheds|, POOL, 3, None)];
    ReachableInv(FIFO_ONLY, ls');
  }

  // Request 1 asks for two of three nodes that are all available, and the FIFO's answer in its round
  // has one, because request 0 came first.
  lemma WrongSize() returns (ls: seq<Label>)
    ensures Exec(FIFO_ONLY, ls).Some? && WellIndexed(Exec(FIFO_ONLY, ls).value)
    ensures var st := Exec(FIFO_ONLY, ls).value;
      && |st.reqs| == 2 && st.reqs[1].params.numNodes == 2
      && |st.scheds| == 2 && RoundRequest(st, 1) == 1 && st.scheds[1].alloc == Some(Alloc(1, [10]))
  {
    var first, mid := FifoRound([], INITIAL, 1);
    var end;
    ls, end := FifoRound(first, mid, 2);
  }
}
