// What every reachable state of the round satisfies.
module RoundInvariant {
  import opened Sums
  import opened Directives
  import opened Round

  // ---- Counting weights ----

  function Bit(b: bool): nat { if b then 1 else 0 }

  function PendingFor(c: nat): SchedCaddy -> nat {
    (s: SchedCaddy) => Bit(s.trk == c && !s.ev.Idle?)
  }

  function OfMeta(m: nat): Caddy -> nat { (cd: Caddy) => Bit(cd.mt == m) }

  function LiveFor(m: nat): Caddy -> nat { (cd: Caddy) => Bit(cd.mt == m && cd.live) }

  function FlagOf(m: nat): Caddy -> nat { (cd: Caddy) => Bit(cd.mt == m && cd.flag) }

  function MetaOf(r: nat): Meta -> nat { (mt: Meta) => Bit(mt.req == r) }

  function LiveOf(r: nat): Meta -> nat { (mt: Meta) => Bit(mt.req == r && mt.live) }

  function Is(r: nat): nat -> nat { (x: nat) => Bit(x == r) }

  function NoSchedule(): bool -> nat { (present: bool) => Bit(!present) }

  function AbsentModule(): SchedModule -> nat { (k: SchedModule) => Bit(k.Absent?) }

  function PresentModule(): SchedModule -> nat { (k: SchedModule) => Bit(!k.Absent?) }

  // Active modules without a schedule function: they are counted and never respond.
  function AbsentMetas(cfg: Config): nat { Sum(cfg.metas, NoSchedule()) }

  function AbsentScheds(cfg: Config): nat { Sum(cfg.scheds, AbsentModule()) }

  // ---- Caddies and trackers ----

  // The caddy that the base itself queues when no meta module took the request.
  predicate IsBase(cd: Caddy) {
    cd.trk.None? && (cd.ev.MetaBase? || cd.ev.Idle?)
  }

  predicate Full(cd: Caddy) {
    cd.trk.Some? && cd.trk.value.nresponded == cd.trk.value.nactive
  }

  // The stages of a caddy.
  predicate CaddyShape(cd: Caddy) {
    match cd.ev
    case PriSched => cd.live && cd.trk.None? && cd.evcbfunc.Idle? && cd.allocations == []
    case SchedBase => cd.live && cd.trk.None? && cd.evcbfunc.PriChoose? && cd.allocations == []
    case PriChoose => cd.live && Full(cd) && cd.evcbfunc.PriChoose?
    case MetaBase => cd.live && if cd.trk.Some? then Full(cd) else cd.evcbfunc.Idle? && !cd.flag
    case Idle =>
      if cd.trk.None? then !cd.live && cd.evcbfunc.Idle? && !cd.flag
      else if cd.live then cd.evcbfunc.PriChoose? && cd.trk.value.nresponded < cd.trk.value.nactive
      else Full(cd)
  }

  // A tracker counts every scheduler that has answered or refused; the outstanding ones are
  // exactly the scheduler caddies still queued.
  ghost predicate TrackerLaw(cfg: Config, caddies: seq<Caddy>, scheds: seq<SchedCaddy>) {
    forall c :: 0 <= c < |caddies| && caddies[c].trk.Some? ==>
      && caddies[c].trk.value.nactive == |cfg.scheds|
      && caddies[c].trk.value.nresponded + Sum(scheds, PendingFor(c)) + AbsentScheds(cfg) == |cfg.scheds|
  }

  ghost predicate Shapes(caddies: seq<Caddy>) {
    forall c :: 0 <= c < |caddies| ==> CaddyShape(caddies[c])
  }

  // ---- Meta objects ----

  // 1 when nobody took the request and the base queued a caddy of its own.
  function BaseCaddies(cfg: Config, mt: Meta): nat {
    Bit(mt.accepted == 0 && AbsentMetas(cfg) == 0)
  }

  // A meta object with `of` caddies, `live` of which have not responded, `flags` of which may
  // assign an allocation.
  predicate MetaOk(cfg: Config, mt: Meta, of: nat, live: nat, flags: nat) {
    && mt.nactive == |cfg.metas|
    && mt.accepted + AbsentMetas(cfg) <= |cfg.metas|
    && live <= of == mt.accepted + BaseCaddies(cfg, mt)
    && flags == Bit(mt.accepted > 0)
    && mt.nresponded + live + AbsentMetas(cfg) == |cfg.metas| + BaseCaddies(cfg, mt)
    && (mt.live <==> mt.accepted == 0 || mt.nresponded < mt.nactive)
  }

  ghost predicate MetaLawAt(cfg: Config, metas: seq<Meta>, caddies: seq<Caddy>, m: nat)
    requires m < |metas|
  {
    MetaOk(cfg, metas[m], Sum(caddies, OfMeta(m)), Sum(caddies, LiveFor(m)), Sum(caddies, FlagOf(m)))
  }

  ghost predicate MetaLaw(cfg: Config, metas: seq<Meta>, caddies: seq<Caddy>) {
    && (forall m :: 0 <= m < |metas| ==> MetaLawAt(cfg, metas, caddies, m))
    && (forall c :: 0 <= c < |caddies| ==>
          caddies[c].mt < |metas| && (IsBase(caddies[c]) <==> metas[caddies[c].mt].accepted == 0))
  }

  // ---- Requests ----

  predicate InTable(table: seq<Option<nat>>, r: nat, index: int) {
    0 <= index < |table| && table[index] == Some(r)
  }

  predicate ParsesOk(q: Req) { FirstError(q.infos) == 0 }

  // The requestor's callback has been called in just this way so far.
  function ExpectedReplies(q: Req, completed: bool): seq<Reply> {
    if !q.hasCallback || q.ev.Init? then []
    else if !ParsesOk(q) then [Reply(Reject, Failed(FirstError(q.infos)))]
    else
      var early := if NotWaiting in q.infos then [Reply(Acknowledge, Success)] else [];
      early + if completed then [Reply(Complete, q.status)] else []
  }

  // The request has been through its meta modules and has been retired.
  ghost predicate Completed(reqs: seq<Req>, metas: seq<Meta>, r: nat)
    requires r < |reqs|
  {
    reqs[r].ev.Idle? && ParsesOk(reqs[r]) && Sum(metas, LiveOf(r)) == 0
  }

  // Request r with `all` meta objects, `live` of them live, and `queued` entries in the FIFO.
  // Its reference count is the number of its holders.
  predicate ReqOk(q: Req, r: nat, table: seq<Option<nat>>, all: nat, live: nat, queued: nat) {
    && q.refs == Bit(q.ev.Init?) + Bit(InTable(table, r, q.index)) + live + queued
    && all == Bit(q.ev.Idle? && ParsesOk(q))
    && live <= all
    && (all == 0 ==> queued == 0)
    && (InTable(table, r, q.index) <==> q.ev.MetaSchedule? || live > 0)
    && (q.ev.MetaSchedule? ==> ParsesOk(q))
    && (q.index < 0 <==> q.ev.Init? || !ParsesOk(q))
    && q.replies == ExpectedReplies(q, q.ev.Idle? && ParsesOk(q) && live == 0)
  }

  ghost predicate ReqLawAt(reqs: seq<Req>, metas: seq<Meta>, fifo: seq<nat>, table: seq<Option<nat>>, r: nat)
    requires r < |reqs|
  {
    ReqOk(reqs[r], r, table, Sum(metas, MetaOf(r)), Sum(metas, LiveOf(r)), Sum(fifo, Is(r)))
  }

  ghost predicate ReqLaw(reqs: seq<Req>, metas: seq<Meta>, fifo: seq<nat>, table: seq<Option<nat>>) {
    && (forall r :: 0 <= r < |reqs| ==> ReqLawAt(reqs, metas, fifo, table, r))
    && (forall i :: 0 <= i < |table| && table[i].Some? ==>
          table[i].value < |reqs| && reqs[table[i].value].index == i)
  }

  // A scheduler that has not run yet is working on the request of its round.
  ghost predicate SchedReqLaw(metas: seq<Meta>, caddies: seq<Caddy>, scheds: seq<SchedCaddy>)
    requires forall s :: 0 <= s < |scheds| ==> scheds[s].trk < |caddies|
    requires forall c :: 0 <= c < |caddies| ==> caddies[c].mt < |metas|
  {
    forall s :: 0 <= s < |scheds| && scheds[s].ev.Run? ==>
      scheds[s].req == metas[caddies[scheds[s].trk].mt].req
  }

  // ---- Answers ----

  // The schedulers of a round are called in module order, and each answer carries the rank of
  // its module among those that have a schedule function.
  ghost predicate OrderLaw(cfg: Config, scheds: seq<SchedCaddy>) {
    && (forall s :: 0 <= s < |scheds| ==>
          && scheds[s].mod < |cfg.scheds|
          && !cfg.scheds[scheds[s].mod].Absent?
          && scheds[s].order == 1 + Sum(cfg.scheds[..scheds[s].mod], PresentModule())
          && (scheds[s].alloc.Some? ==> scheds[s].alloc.value.pri == scheds[s].order)
          && (scheds[s].ev.Run? ==> scheds[s].alloc.None?))
    && (forall s, t :: 0 <= s < t < |scheds| && scheds[s].trk == scheds[t].trk ==> scheds[s].mod < scheds[t].mod)
  }

  predicate AnsweredWith(sc: SchedCaddy, c: nat, a: Alloc) {
    sc.trk == c && sc.ev.Idle? && sc.alloc == Some(a)
  }

  // A caddy holds exactly the allocations that its schedulers have answered with.
  ghost predicate AnswerLaw(caddies: seq<Caddy>, scheds: seq<SchedCaddy>)
    requires forall s :: 0 <= s < |scheds| ==> scheds[s].trk < |caddies|
  {
    && (forall s :: 0 <= s < |scheds| && scheds[s].ev.Idle? && scheds[s].alloc.Some? ==>
          scheds[s].alloc.value in caddies[scheds[s].trk].allocations)
    && (forall c, a :: 0 <= c < |caddies| && a in caddies[c].allocations ==>
          exists s :: 0 <= s < |scheds| && AnsweredWith(scheds[s], c, a))
  }

  // ---- Choices ----

  predicate Chosen(cd: Caddy) {
    cd.flag && (cd.ev.MetaBase? || !cd.live)
  }

  // The allocation of a request is the choice of the one caddy that may assign it.
  ghost predicate ChoiceLaw(reqs: seq<Req>, metas: seq<Meta>, caddies: seq<Caddy>)
    requires forall m :: 0 <= m < |metas| ==> metas[m].req < |reqs|
    requires forall c :: 0 <= c < |caddies| ==> caddies[c].mt < |metas|
  {
    && (forall c :: 0 <= c < |caddies| && Chosen(caddies[c]) ==>
          reqs[metas[caddies[c].mt].req].allocation == Best(caddies[c].allocations))
    && (forall r :: 0 <= r < |reqs| && reqs[r].allocation.Some? ==>
          exists c :: 0 <= c < |caddies| && Chosen(caddies[c]) && metas[caddies[c].mt].req == r)
    && (forall r :: 0 <= r < |reqs| && reqs[r].status.Success? ==> reqs[r].allocation.Some?)
  }

  // With one active meta module, an assigned allocation is never marked unavailable afterwards.
  ghost predicate SingleMetaLaw(cfg: Config, reqs: seq<Req>) {
    |cfg.metas| == 1 ==> forall r :: 0 <= r < |reqs| && reqs[r].allocation.Some? ==> reqs[r].status.Success?
  }

  ghost predicate Inv(cfg: Config, st: State) {
    && WellIndexed(st)
    && Shapes(st.caddies)
    && TrackerLaw(cfg, st.caddies, st.scheds)
    && MetaLaw(cfg, st.metas, st.caddies)
    && ReqLaw(st.reqs, st.metas, st.fifo, st.table)
    && SchedReqLaw(st.metas, st.caddies, st.scheds)
    && OrderLaw(cfg, st.scheds)
    && AnswerLaw(st.caddies, st.scheds)
    && ChoiceLaw(st.reqs, st.metas, st.caddies)
    && SingleMetaLaw(cfg, st.reqs)
  }

  // ---- Consequences of the invariant that the handlers rely on ----

  // A live caddy belongs to a live meta object.
  lemma LiveCaddyHasLiveMeta(cfg: Config, st: State, c: nat)
    requires Inv(cfg, st) && c < |st.caddies| && st.caddies[c].live
    ensures st.metas[st.caddies[c].mt].live
  {
    SumAtLeast(st.caddies, c, LiveFor(st.caddies[c].mt));
    assert MetaLawAt(cfg, st.metas, st.caddies, st.caddies[c].mt);
  }

  // The request of a live meta object is referenced by it and by the request table.
  lemma LiveMetaHoldsRequest(cfg: Config, st: State, m: nat)
    requires Inv(cfg, st) && m < |st.metas| && st.metas[m].live
    ensures var r := st.metas[m].req;
            && st.reqs[r].refs >= 2 && st.reqs[r].ev.Idle? && ParsesOk(st.reqs[r])
            && InTable(st.table, r, st.reqs[r].index)
            && Sum(st.metas, LiveOf(r)) == 1 == Sum(st.metas, MetaOf(r))
  {
    var r := st.metas[m].req;
    SumAtLeast(st.metas, m, LiveOf(r));
    SumAtLeast(st.metas, m, MetaOf(r));
    assert ReqLawAt(st.reqs, st.metas, st.fifo, st.table, r);
  }

  // A scheduler caddy that is queued belongs to a caddy that is waiting for it.
  lemma PendingSchedIsAwaited(cfg: Config, st: State, s: nat)
    requires Inv(cfg, st) && s < |st.scheds| && !st.scheds[s].ev.Idle?
    ensures var cd := st.caddies[st.scheds[s].trk];
            cd.live && cd.ev.Idle? && cd.trk.Some? && cd.trk.value.nresponded < cd.trk.value.nactive
  {
    SumAtLeast(st.scheds, s, PendingFor(st.scheds[s].trk));
  }

  // Two meta objects of one request are the same object.
  lemma OneMetaPerRequest(cfg: Config, st: State, m: nat, m': nat)
    requires Inv(cfg, st) && m < |st.metas| && m' < |st.metas| && st.metas[m].req == st.metas[m'].req
    ensures m == m'
  {
    var r := st.metas[m].req;
    assert ReqLawAt(st.reqs, st.metas, st.fifo, st.table, r);
    if m < m' {
      SumAtLeastTwo(st.metas, m, m', MetaOf(r));
    } else if m' < m {
      SumAtLeastTwo(st.metas, m', m, MetaOf(r));
    }
  }

  // At most one caddy of a meta object may assign an allocation.
  lemma OneFlagPerMeta(cfg: Config, st: State, c: nat, c': nat)
    requires Inv(cfg, st) && c < |st.caddies| && c' < |st.caddies|
    requires st.caddies[c].mt == st.caddies[c'].mt && st.caddies[c].flag && st.caddies[c'].flag
    ensures c == c'
  {
    var m := st.caddies[c].mt;
    assert MetaLawAt(cfg, st.metas, st.caddies, m);
    if c < c' {
      SumAtLeastTwo(st.caddies, c, c', FlagOf(m));
    } else if c' < c {
      SumAtLeastTwo(st.caddies, c', c, FlagOf(m));
    }
  }

  lemma InitialInv(cfg: Config)
    ensures Inv(cfg, INITIAL)
  {
  }
}
