// The scheduling round as a transition system: requests fan out to the meta modules, each meta
// module fans out to the schedulers, and the responses fan back in.
//
// Objects live in sequences and are named by their index; they are never moved. Every object
// embeds one libevent event, as in C: its `ev` field is the callback it is queued for, Idle when
// it is not queued. Any queued object may be served next, so the runs considered include every
// order in which the three event bases can interleave.
module Round {
  import opened Sums
  import opened Directives
  import FifoNodes

  datatype Status = Success | NotSupported | NotAvailable | Failed(code: int)

  datatype Alloc = Alloc(pri: nat, nodes: seq<nat>)

  datatype ReplyKind = Acknowledge | Reject | Complete

  // One call of the requestor's callback.
  datatype Reply = Reply(kind: ReplyKind, status: Status)

  datatype ReqEvent = Idle | Init | MetaSchedule

  // dsched_req_t. `replies` is history: the calls made to the callback so far.
  datatype Req = Req(ev: ReqEvent, refs: int, index: int, infos: seq<Info>, hasCallback: bool,
                     params: Params, status: Status, allocation: Option<Alloc>, replies: seq<Reply>)

  // dsched_meta_t. `accepted` is history: how many meta modules took the request.
  datatype Meta = Meta(live: bool, nactive: nat, nresponded: nat, req: nat, accepted: nat)

  // dsched_op_tracker_t. The caddy and its tracker point at each other, so it is kept there.
  datatype Tracker = Tracker(nactive: nat, nresponded: nat)

  datatype CaddyEvent = Idle | PriSched | SchedBase | PriChoose | MetaBase

  // dsched_shift_caddy_t as the meta level uses it. evcbfunc is Idle while it is NULL.
  datatype Caddy = Caddy(ev: CaddyEvent, live: bool, mt: nat, flag: bool, evcbfunc: CaddyEvent,
                         trk: Option<Tracker>, allocations: seq<Alloc>)

  datatype SchedEvent = Idle | Run | Respond

  // dsched_shift_caddy_t as the scheduler level uses it. `mod` is history: the position of the
  // scheduler in the priority-ordered list of active modules.
  datatype SchedCaddy = SchedCaddy(ev: SchedEvent, order: nat, req: nat, trk: nat,
                                   alloc: Option<Alloc>, fifo: bool, mod: nat)

  // An active scheduler: its module has no schedule function, is the FIFO, or is another one.
  datatype SchedModule = Absent | Fifo | Other

  // The active modules in priority order; a meta module is described by whether it has a
  // schedule function. They are fixed once selection is over.
  datatype Config = Config(metas: seq<bool>, scheds: seq<SchedModule>)

  datatype State = State(reqs: seq<Req>, metas: seq<Meta>, caddies: seq<Caddy>,
                         scheds: seq<SchedCaddy>, fifo: seq<nat>, table: seq<Option<nat>>)

  const INITIAL := State([], [], [], [], [], [])

  // ---- Fan-out to the meta modules ----

  datatype MetaFan = MetaFan(created: seq<Caddy>, refused: nat)

  // Calling the first n meta modules for meta object mt: module i takes the request when
  // accepts[i]. Only the first to take it is told to assign an allocation.
  function FanMetas(mods: seq<bool>, accepts: seq<bool>, mt: nat, n: nat): (f: MetaFan)
    requires n <= |mods| == |accepts|
  {
    if n == 0 then MetaFan([], 0)
    else
      var f := FanMetas(mods, accepts, mt, n - 1);
      if !mods[n - 1] then f
      else if accepts[n - 1] then
        MetaFan(f.created + [Caddy(PriSched, true, mt, f.created == [], CaddyEvent.Idle, None, [])], f.refused)
      else MetaFan(f.created, f.refused + 1)
  }

  // ---- Fan-out to the schedulers ----

  datatype SchedFan = SchedFan(created: seq<SchedCaddy>, refused: nat, order: nat)

  // Calling the first n schedulers for caddy c: scheduler i takes the request when accepts[i].
  // The order handed out counts the modules that have a schedule function, from 1.
  function FanScheds(mods: seq<SchedModule>, accepts: seq<bool>, c: nat, r: nat, n: nat): (f: SchedFan)
    requires n <= |mods| == |accepts|
  {
    if n == 0 then SchedFan([], 0, 1)
    else
      var f := FanScheds(mods, accepts, c, r, n - 1);
      if mods[n - 1].Absent? then f
      else if accepts[n - 1] then
        SchedFan(f.created + [SchedCaddy(Run, f.order, r, c, None, mods[n - 1].Fifo?, n - 1)],
                 f.refused, f.order + 1)
      else SchedFan(f.created, f.refused + 1, f.order + 1)
  }

  // ---- The chooser ----

  // The allocation of least pri, the first of them on a tie.
  function Best(allocs: seq<Alloc>): Option<Alloc> {
    if allocs == [] then None
    else
      var n := |allocs| - 1;
      var b := Best(allocs[..n]);
      if b.None? || allocs[n].pri < b.value.pri then Some(allocs[n]) else b
  }

  // ---- Transitions ----

  datatype Label =
    | Arrive(infos: seq<Info>, hasCallback: bool)
    | RequestInit(r: nat, slot: nat)
    | MetaBaseSchedule(r: nat, accepts: seq<bool>)
    | PriSchedule(c: nat)
    | SchedBaseSchedule(c: nat, accepts: seq<bool>)
    | RunScheduler(s: nat, pool: FifoNodes.Pool, avail: int, answer: Option<seq<nat>>)
    | SchedBaseCallback(s: nat)
    | PriCallback(c: nat)
    | MetaBaseCallback(c: nat)

  // A slot that the request table may hand out: an empty one, or a new one at the end.
  predicate FreeSlot(table: seq<Option<nat>>, slot: nat) {
    slot == |table| || (slot < |table| && table[slot].None?)
  }

  function PutSlot(table: seq<Option<nat>>, slot: nat, r: nat): seq<Option<nat>>
    requires FreeSlot(table, slot)
  {
    if slot == |table| then table + [Some(r)] else table[slot := Some(r)]
  }

  // A label is enabled when the object it serves is queued for that callback. The indices that a
  // handler follows are required in range here; the invariant shows that they always are.
  predicate Enabled(cfg: Config, st: State, l: Label) {
    match l
    case Arrive(_, _) => true
    case RequestInit(r, slot) => r < |st.reqs| && st.reqs[r].ev.Init? && FreeSlot(st.table, slot)
    case MetaBaseSchedule(r, accepts) =>
      r < |st.reqs| && st.reqs[r].ev.MetaSchedule? && |accepts| == |cfg.metas|
    case PriSchedule(c) => c < |st.caddies| && st.caddies[c].ev.PriSched?
    case SchedBaseSchedule(c, accepts) =>
      c < |st.caddies| && st.caddies[c].ev.SchedBase? && |accepts| == |cfg.scheds|
    case RunScheduler(s, _, _, _) => s < |st.scheds| && st.scheds[s].ev.Run?
    case SchedBaseCallback(s) => s < |st.scheds| && st.scheds[s].ev.Respond?
    case PriCallback(c) => c < |st.caddies| && st.caddies[c].ev.PriChoose?
    case MetaBaseCallback(c) => c < |st.caddies| && st.caddies[c].ev.MetaBase?
  }

  // Every index held in the state is in range, and a scheduler's caddy belongs to a caddy that
  // has a tracker.
  ghost predicate WellIndexed(st: State) {
    && (forall m :: 0 <= m < |st.metas| ==> st.metas[m].req < |st.reqs|)
    && (forall c :: 0 <= c < |st.caddies| ==> st.caddies[c].mt < |st.metas|)
    && (forall s :: 0 <= s < |st.scheds| ==>
          st.scheds[s].req < |st.reqs| && st.scheds[s].trk < |st.caddies|
          && st.caddies[st.scheds[s].trk].trk.Some?)
    && (forall i :: 0 <= i < |st.fifo| ==> st.fifo[i] < |st.reqs|)
    && (forall i :: 0 <= i < |st.table| && st.table[i].Some? ==> st.table[i].value < |st.reqs|)
  }

  // dsched_alloc_fn
  function DoArrive(st: State, infos: seq<Info>, hasCallback: bool): State {
    st.(reqs := st.reqs + [Req(Init, 1, -1, infos, hasCallback, NO_PARAMS, NotSupported, None, [])])
  }

  function Called(q: Req, kind: ReplyKind, status: Status): Req {
    if q.hasCallback then q.(replies := q.replies + [Reply(kind, status)]) else q
  }

  // request_init
  function DoRequestInit(st: State, r: nat, slot: nat): State
    requires r < |st.reqs| && FreeSlot(st.table, slot)
  {
    var o := Parse(st.reqs[r].infos);
    var q := st.reqs[r].(params := o.params);
    if o.error == 0 then
      var q' := q.(index := slot, ev := MetaSchedule);
      st.(reqs := st.reqs[r := if o.notWaiting then Called(q', Acknowledge, Success) else q'],
          table := PutSlot(st.table, slot, r))
    else
      var q' := Called(q, Reject, Failed(o.error));
      st.(reqs := st.reqs[r := q'.(ev := ReqEvent.Idle, refs := q'.refs - 1)])
  }

  // dsched_meta_base_schedule
  function DoMetaBaseSchedule(cfg: Config, st: State, r: nat, accepts: seq<bool>): State
    requires r < |st.reqs| && |accepts| == |cfg.metas|
  {
    var m := |st.metas|;
    var f := FanMetas(cfg.metas, accepts, m, |cfg.metas|);
    var q := st.reqs[r].(ev := ReqEvent.Idle, refs := st.reqs[r].refs + 1);
    var mt := Meta(true, |cfg.metas|, f.refused, r, |f.created|);
    if f.refused == |cfg.metas| then
      st.(reqs := st.reqs[r := q.(status := NotAvailable)], metas := st.metas + [mt],
          caddies := st.caddies + f.created + [Caddy(MetaBase, true, m, false, CaddyEvent.Idle, None, [])])
    else
      st.(reqs := st.reqs[r := q], metas := st.metas + [mt], caddies := st.caddies + f.created)
  }

  // sched in meta_pri.c
  function DoPriSchedule(st: State, c: nat): State
    requires c < |st.caddies|
  {
    st.(caddies := st.caddies[c := st.caddies[c].(evcbfunc := PriChoose, ev := SchedBase)])
  }

  // dsched_sched_base_schedule
  function DoSchedBaseSchedule(cfg: Config, st: State, c: nat, accepts: seq<bool>): State
    requires c < |st.caddies| && |accepts| == |cfg.scheds| && WellIndexed(st)
  {
    var cd := st.caddies[c];
    var r := st.metas[cd.mt].req;
    var f := FanScheds(cfg.scheds, accepts, c, r, |cfg.scheds|);
    var cd' := cd.(trk := Some(Tracker(|cfg.scheds|, f.refused)), ev := CaddyEvent.Idle);
    var st' := st.(scheds := st.scheds + f.created);
    if f.refused == |cfg.scheds| then
      st'.(reqs := st.reqs[r := st.reqs[r].(status := NotAvailable)],
           caddies := st.caddies[c := cd'.(ev := cd.evcbfunc)])
    else
      st'.(caddies := st.caddies[c := cd'])
  }

  // What the FIFO answers when the head of its list is h.
  function FifoAnswer(st: State, h: nat, order: nat, pool: FifoNodes.Pool, avail: int): Option<Alloc>
    requires h < |st.reqs|
  {
    if st.reqs[h].params.numNodes < avail
    then Some(Alloc(order, FifoNodes.Pick(pool, st.reqs[h].params.numNodes)))
    else None
  }

  // sched in sched_fifo.c, or another scheduler giving some answer
  function DoRunScheduler(st: State, s: nat, pool: FifoNodes.Pool, avail: int, answer: Option<seq<nat>>): State
    requires s < |st.scheds| && WellIndexed(st)
  {
    var sc := st.scheds[s];
    if sc.fifo then
      var fifo := st.fifo + [sc.req];
      var head := fifo[0];
      var a := FifoAnswer(st, head, sc.order, pool, avail);
      st.(reqs := st.reqs[sc.req := st.reqs[sc.req].(refs := st.reqs[sc.req].refs + 1)],
          fifo := fifo,
          scheds := st.scheds[s := if a.Some? then sc.(ev := Respond, alloc := a, req := head) else sc.(ev := Respond)])
    else
      var a := if answer.Some? then Some(Alloc(sc.order, answer.value)) else None;
      st.(scheds := st.scheds[s := if a.Some? then sc.(ev := Respond, alloc := a) else sc.(ev := Respond)])
  }

  // dsched_sched_base_cbfunc
  function DoSchedBaseCallback(st: State, s: nat): State
    requires s < |st.scheds| && WellIndexed(st)
  {
    var sc := st.scheds[s];
    var cd := st.caddies[sc.trk];
    var t := cd.trk.value.(nresponded := cd.trk.value.nresponded + 1);
    var cd' := cd.(trk := Some(t),
                   allocations := if sc.alloc.Some? then cd.allocations + [sc.alloc.value] else cd.allocations,
                   ev := if t.nresponded == t.nactive then cd.evcbfunc else cd.ev);
    st.(caddies := st.caddies[sc.trk := cd'], scheds := st.scheds[s := sc.(ev := SchedEvent.Idle)])
  }

  // sched_cbfunc in meta_pri.c
  function DoPriCallback(st: State, c: nat): State
    requires c < |st.caddies| && WellIndexed(st)
  {
    var cd := st.caddies[c];
    var r := st.metas[cd.mt].req;
    var best := Best(cd.allocations);
    st.(caddies := st.caddies[c := cd.(ev := MetaBase)],
        reqs := if cd.flag && best.Some?
                then st.reqs[r := st.reqs[r].(allocation := best, status := Success)]
                else st.reqs)
  }

  // dsched_meta_base_cbfunc. The last response replies, clears the table slot, drops the
  // request's first reference and releases the meta object, which drops the second.
  function DoMetaBaseCallback(st: State, c: nat): State
    requires c < |st.caddies| && WellIndexed(st)
  {
    var cd := st.caddies[c];
    var mt := st.metas[cd.mt].(nresponded := st.metas[cd.mt].nresponded + 1);
    var st' := st.(caddies := st.caddies[c := cd.(ev := CaddyEvent.Idle, live := false)]);
    if mt.nresponded == mt.nactive then
      var q := Called(st.reqs[mt.req], Complete, st.reqs[mt.req].status);
      st'.(metas := st.metas[cd.mt := mt.(live := false)],
           reqs := st.reqs[mt.req := q.(refs := q.refs - 2)],
           table := if 0 <= q.index < |st.table| then st.table[q.index := None] else st.table)
    else
      st'.(metas := st.metas[cd.mt := mt])
  }

  function Apply(cfg: Config, st: State, l: Label): State
    requires Enabled(cfg, st, l) && WellIndexed(st)
  {
    match l
    case Arrive(infos, hasCallback) => DoArrive(st, infos, hasCallback)
    case RequestInit(r, slot) => DoRequestInit(st, r, slot)
    case MetaBaseSchedule(r, accepts) => DoMetaBaseSchedule(cfg, st, r, accepts)
    case PriSchedule(c) => DoPriSchedule(st, c)
    case SchedBaseSchedule(c, accepts) => DoSchedBaseSchedule(cfg, st, c, accepts)
    case RunScheduler(s, pool, avail, answer) => DoRunScheduler(st, s, pool, avail, answer)
    case SchedBaseCallback(s) => DoSchedBaseCallback(st, s)
    case PriCallback(c) => DoPriCallback(st, c)
    case MetaBaseCallback(c) => DoMetaBaseCallback(st, c)
  }

  // A run is the sequence of labels served, last one at the end. Running gives no state when
  // some label is not enabled at its turn.
  ghost function Exec(cfg: Config, ls: seq<Label>): Option<State> {
    if ls == [] then Some(INITIAL)
    else
      var n := |ls| - 1;
      var before := Exec(cfg, ls[..n]);
      if before.Some? && WellIndexed(before.value) && Enabled(cfg, before.value, ls[n])
      then Some(Apply(cfg, before.value, ls[n]))
      else None
  }
}
