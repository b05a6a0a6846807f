// Every handler preserves the invariant of the round.
module RoundSteps {
  import opened Sums
  import opened Directives
  import opened Round
  import opened RoundInvariant

  // ---- dsched_alloc_fn ----

  lemma ArriveKeepsReqLaw(st: State, infos: seq<Info>, hasCallback: bool)
    requires WellIndexed(st) && ReqLaw(st.reqs, st.metas, st.fifo, st.table)
    ensures var st' := DoArrive(st, infos, hasCallback);
            ReqLaw(st'.reqs, st'.metas, st'.fifo, st'.table)
  {
    var st' := DoArrive(st, infos, hasCallback);
    var n := |st.reqs|;
    SumZero(st.metas, LiveOf(n));
    SumZero(st.metas, MetaOf(n));
    assert forall i :: 0 <= i < |st.fifo| ==> Is(n)(st.fifo[i]) == Bit(st.fifo[i] == n);
    SumZero(st.fifo, Is(n));
    forall r | 0 <= r < |st'.reqs|
      ensures ReqLawAt(st'.reqs, st'.metas, st'.fifo, st'.table, r)
    {
      if r < n {
        assert ReqLawAt(st.reqs, st.metas, st.fifo, st.table, r);
      }
    }
  }

  lemma NewRequestKeepsChoiceLaw(cfg: Config, reqs: seq<Req>, q: Req, metas: seq<Meta>, caddies: seq<Caddy>)
    requires forall m :: 0 <= m < |metas| ==> metas[m].req < |reqs|
    requires forall c :: 0 <= c < |caddies| ==> caddies[c].mt < |metas|
    requires ChoiceLaw(reqs, metas, caddies) && SingleMetaLaw(cfg, reqs)
    requires q.allocation.None? && !q.status.Success?
    ensures ChoiceLaw(reqs + [q], metas, caddies) && SingleMetaLaw(cfg, reqs + [q])
  {
  }

  lemma ArriveKeepsInv(cfg: Config, st: State, infos: seq<Info>, hasCallback: bool)
    requires Inv(cfg, st)
    ensures Inv(cfg, DoArrive(st, infos, hasCallback))
  {
    ArriveKeepsReqLaw(st, infos, hasCallback);
    var q := DoArrive(st, infos, hasCallback).reqs[|st.reqs|];
    NewRequestKeepsChoiceLaw(cfg, st.reqs, q, st.metas, st.caddies);
  }

  // ---- request_init ----

  // Putting r in a free slot changes which requests are found in the table for r alone.
  lemma PutSlotFinds(table: seq<Option<nat>>, slot: nat, r: nat, x: nat, index: int)
    requires FreeSlot(table, slot)
    ensures InTable(PutSlot(table, slot, r), r, slot)
    ensures x != r ==> (InTable(PutSlot(table, slot, r), x, index) <==> InTable(table, x, index))
  {
  }

  // The request's own count: its slot takes over from its creation event, or it is dropped.
  lemma RequestInitReqOk(st: State, r: nat, slot: nat, all: nat, live: nat, queued: nat)
    requires r < |st.reqs| && st.reqs[r].ev.Init? && FreeSlot(st.table, slot)
    requires ReqOk(st.reqs[r], r, st.table, all, live, queued)
    ensures var st' := DoRequestInit(st, r, slot);
            ReqOk(st'.reqs[r], r, st'.table, all, live, queued)
  {
  }

  lemma RequestInitKeepsReqLaw(st: State, r: nat, slot: nat)
    requires ReqLaw(st.reqs, st.metas, st.fifo, st.table)
    requires r < |st.reqs| && st.reqs[r].ev.Init? && FreeSlot(st.table, slot)
    ensures var st' := DoRequestInit(st, r, slot);
            ReqLaw(st'.reqs, st'.metas, st'.fifo, st'.table)
  {
    var st' := DoRequestInit(st, r, slot);
    assert ReqLawAt(st.reqs, st.metas, st.fifo, st.table, r);
    RequestInitReqOk(st, r, slot, Sum(st.metas, MetaOf(r)), Sum(st.metas, LiveOf(r)), Sum(st.fifo, Is(r)));
    forall x | 0 <= x < |st'.reqs|
      ensures ReqLawAt(st'.reqs, st'.metas, st'.fifo, st'.table, x)
    {
      assert ReqLawAt(st.reqs, st.metas, st.fifo, st.table, x);
      PutSlotFinds(st.table, slot, r, x, st.reqs[x].index);
    }
  }

  lemma RequestInitUpdates(st: State, r: nat, slot: nat)
    requires WellIndexed(st) && r < |st.reqs| && FreeSlot(st.table, slot)
    ensures var st' := DoRequestInit(st, r, slot);
      && WellIndexed(st') && |st'.reqs| == |st.reqs|
      && st'.caddies == st.caddies && st'.metas == st.metas && st'.scheds == st.scheds
      && forall x :: 0 <= x < |st.reqs| ==>
           st'.reqs[x].allocation == st.reqs[x].allocation && st'.reqs[x].status == st.reqs[x].status
  {
  }

  lemma RequestInitKeepsInv(cfg: Config, st: State, r: nat, slot: nat)
    requires Inv(cfg, st) && Enabled(cfg, st, RequestInit(r, slot))
    ensures Inv(cfg, DoRequestInit(st, r, slot))
  {
    var reqs' := DoRequestInit(st, r, slot).reqs;
    RequestInitUpdates(st, r, slot);
    RequestInitKeepsReqLaw(st, r, slot);
    RequestUpdateKeepsChoiceLaw(cfg, st.reqs, reqs', st.metas, st.metas, st.caddies);
  }

  // ---- dsched_meta_base_schedule ----

  // What calling the meta modules creates.
  lemma {:induction false} FanMetasShape(cfg: Config, accepts: seq<bool>, mt: nat, n: nat)
    requires n <= |cfg.metas| == |accepts|
    ensures var f := FanMetas(cfg.metas, accepts, mt, n);
      && |f.created| + f.refused + Sum(cfg.metas[..n], NoSchedule()) == n
      && forall i :: 0 <= i < |f.created| ==>
           f.created[i] == Caddy(PriSched, true, mt, i == 0, CaddyEvent.Idle, None, [])
  {
    if n > 0 {
      FanMetasShape(cfg, accepts, mt, n - 1);
      SumTake(cfg.metas, n - 1, NoSchedule());
      assert Sum(cfg.metas[..n], NoSchedule()) == Sum(cfg.metas[..n - 1], NoSchedule()) + Bit(!cfg.metas[n - 1]);
    }
  }

  // How the caddies of one call count for meta object m.
  lemma FanMetasCounts(created: seq<Caddy>, mt: nat, m: nat)
    requires forall i :: 0 <= i < |created| ==>
      created[i] == Caddy(PriSched, true, mt, i == 0, CaddyEvent.Idle, None, [])
    ensures Sum(created, OfMeta(m)) == Sum(created, LiveFor(m)) == if m == mt then |created| else 0
    ensures Sum(created, FlagOf(m)) == Bit(m == mt && created != [])
  {
    if m == mt {
      SumConstant(created, OfMeta(m), 1);
      SumConstant(created, LiveFor(m), 1);
      if created != [] {
        assert created == created[..1] + created[1..];
        SumConcat(created[..1], created[1..], FlagOf(m));
        SumZero(created[1..], FlagOf(m));
        assert created[..1] == [] + [created[0]];
        SumAppend([], created[0], FlagOf(m));
      }
    } else {
      SumZero(created, OfMeta(m));
      SumZero(created, LiveFor(m));
      SumZero(created, FlagOf(m));
    }
  }

  // New caddies of a new meta object leave the counts of the earlier ones alone.
  lemma EarlierMetaKept(cfg: Config, metas: seq<Meta>, caddies: seq<Caddy>, mt: Meta, added: seq<Caddy>, m: nat)
    requires MetaLaw(cfg, metas, caddies) && m < |metas|
    requires forall i :: 0 <= i < |added| ==> added[i].mt == |metas|
    ensures MetaLawAt(cfg, metas + [mt], caddies + added, m)
  {
    SumConcat(caddies, added, OfMeta(m));
    SumConcat(caddies, added, LiveFor(m));
    SumConcat(caddies, added, FlagOf(m));
    assert MetaLawAt(cfg, metas, caddies, m);
    SumZero(added, OfMeta(m));
    SumZero(added, LiveFor(m));
    SumZero(added, FlagOf(m));
  }

  // A new meta object has only its new caddies.
  lemma NewMetaCounted(cfg: Config, metas: seq<Meta>, caddies: seq<Caddy>, mt: Meta, added: seq<Caddy>, m: nat)
    requires MetaLaw(cfg, metas, caddies) && m == |metas|
    requires MetaOk(cfg, mt, Sum(added, OfMeta(m)), Sum(added, LiveFor(m)), Sum(added, FlagOf(m)))
    ensures MetaLawAt(cfg, metas + [mt], caddies + added, m)
  {
    SumConcat(caddies, added, OfMeta(m));
    SumConcat(caddies, added, LiveFor(m));
    SumConcat(caddies, added, FlagOf(m));
    SumZero(caddies, OfMeta(m));
    SumZero(caddies, LiveFor(m));
    SumZero(caddies, FlagOf(m));
  }

  // The caddies that dsched_meta_base_schedule creates.
  function NewCaddies(cfg: Config, accepts: seq<bool>, mt: nat): seq<Caddy>
    requires |accepts| == |cfg.metas|
  {
    var f := FanMetas(cfg.metas, accepts, mt, |cfg.metas|);
    if f.refused == |cfg.metas|
    then f.created + [Caddy(MetaBase, true, mt, false, CaddyEvent.Idle, None, [])]
    else f.created
  }

  lemma NewCaddiesShape(cfg: Config, accepts: seq<bool>, n: nat)
    requires |accepts| == |cfg.metas|
    ensures var f := FanMetas(cfg.metas, accepts, n, |cfg.metas|);
            var mt := Meta(true, |cfg.metas|, f.refused, 0, |f.created|);
            var added := NewCaddies(cfg, accepts, n);
            && MetaOk(cfg, mt, Sum(added, OfMeta(n)), Sum(added, LiveFor(n)), Sum(added, FlagOf(n)))
            && Shapes(added)
            && forall i :: 0 <= i < |added| ==>
                 && added[i].mt == n && added[i].live && added[i].trk.None? && added[i].allocations == []
                 && !Chosen(added[i]) && (IsBase(added[i]) <==> |f.created| == 0)
  {
    var f := FanMetas(cfg.metas, accepts, n, |cfg.metas|);
    var base := Caddy(MetaBase, true, n, false, CaddyEvent.Idle, None, []);
    FanMetasShape(cfg, accepts, n, |cfg.metas|);
    assert cfg.metas[..|cfg.metas|] == cfg.metas;
    FanMetasCounts(f.created, n, n);
    if f.refused == |cfg.metas| {
      SumAppend(f.created, base, OfMeta(n));
      SumAppend(f.created, base, LiveFor(n));
      SumAppend(f.created, base, FlagOf(n));
    }
  }

  lemma MetaBaseScheduleKeepsMetaLaw(cfg: Config, st: State, r: nat, accepts: seq<bool>)
    requires MetaLaw(cfg, st.metas, st.caddies)
    requires r < |st.reqs| && |accepts| == |cfg.metas|
    ensures var st' := DoMetaBaseSchedule(cfg, st, r, accepts);
            MetaLaw(cfg, st'.metas, st'.caddies)
  {
    var st' := DoMetaBaseSchedule(cfg, st, r, accepts);
    var added := NewCaddies(cfg, accepts, |st.metas|);
    NewCaddiesShape(cfg, accepts, |st.metas|);
    NewCaddiesAdded(cfg, st, r, accepts);
    forall m | 0 <= m < |st'.metas|
      ensures MetaLawAt(cfg, st'.metas, st'.caddies, m)
    {
      if m < |st.metas| {
        EarlierMetaKept(cfg, st.metas, st.caddies, st'.metas[|st.metas|], added, m);
      } else {
        NewMetaCounted(cfg, st.metas, st.caddies, st'.metas[|st.metas|], added, m);
      }
    }
  }

  lemma NewCaddiesAdded(cfg: Config, st: State, r: nat, accepts: seq<bool>)
    requires r < |st.reqs| && |accepts| == |cfg.metas|
    ensures DoMetaBaseSchedule(cfg, st, r, accepts).caddies == st.caddies + NewCaddies(cfg, accepts, |st.metas|)
  {
  }

  // The request's own count: the meta object adds a reference and a holder.
  lemma NewMetaReqOk(q: Req, r: nat, table: seq<Option<nat>>, all: nat, live: nat, queued: nat, status: Status)
    requires ReqOk(q, r, table, all, live, queued) && q.ev.MetaSchedule?
    ensures ReqOk(q.(ev := ReqEvent.Idle, refs := q.refs + 1, status := status), r, table, all + 1, live + 1, queued)
    ensures all == 0
  {
  }

  lemma MetaBaseScheduleKeepsReqLaw(cfg: Config, st: State, r: nat, accepts: seq<bool>)
    requires ReqLaw(st.reqs, st.metas, st.fifo, st.table)
    requires r < |st.reqs| && st.reqs[r].ev.MetaSchedule? && |accepts| == |cfg.metas|
    ensures var st' := DoMetaBaseSchedule(cfg, st, r, accepts);
            ReqLaw(st'.reqs, st'.metas, st'.fifo, st'.table)
    ensures Sum(st.metas, MetaOf(r)) == 0
  {
    var st' := DoMetaBaseSchedule(cfg, st, r, accepts);
    var q, mt := st'.reqs[r], st'.metas[|st.metas|];
    assert q == st.reqs[r].(ev := ReqEvent.Idle, refs := st.reqs[r].refs + 1, status := q.status);
    assert ReqLawAt(st.reqs, st.metas, st.fifo, st.table, r);
    NewMetaReqOk(st.reqs[r], r, st.table, Sum(st.metas, MetaOf(r)), Sum(st.metas, LiveOf(r)), Sum(st.fifo, Is(r)),
      q.status);
    NewMetaKeepsReqLaw(st, r, q, mt);
    assert st'.reqs == st.reqs[r := q] && st'.metas == st.metas + [mt];
  }

  lemma NewMetaKeepsReqLaw(st: State, r: nat, q: Req, mt: Meta)
    requires ReqLaw(st.reqs, st.metas, st.fifo, st.table) && r < |st.reqs|
    requires mt.req == r && mt.live && q.index == st.reqs[r].index
    requires ReqOk(q, r, st.table, Sum(st.metas, MetaOf(r)) + 1, Sum(st.metas, LiveOf(r)) + 1, Sum(st.fifo, Is(r)))
    ensures ReqLaw(st.reqs[r := q], st.metas + [mt], st.fifo, st.table)
  {
    var reqs', metas' := st.reqs[r := q], st.metas + [mt];
    forall x | 0 <= x < |reqs'|
      ensures ReqLawAt(reqs', metas', st.fifo, st.table, x)
    {
      assert ReqLawAt(st.reqs, st.metas, st.fifo, st.table, x);
      SumAppend(st.metas, mt, MetaOf(x));
      SumAppend(st.metas, mt, LiveOf(x));
    }
  }

  // Nothing is assigned to a request that has no meta object yet.
  lemma NoAllocationBeforeMeta(st: State, r: nat)
    requires WellIndexed(st) && ChoiceLaw(st.reqs, st.metas, st.caddies)
    requires r < |st.reqs| && Sum(st.metas, MetaOf(r)) == 0
    ensures st.reqs[r].allocation.None?
  {
    if st.reqs[r].allocation.Some? {
      var c :| 0 <= c < |st.caddies| && Chosen(st.caddies[c]) && st.metas[st.caddies[c].mt].req == r;
      SumAtLeast(st.metas, st.caddies[c].mt, MetaOf(r));
      assert false;
    }
  }

  // Caddies that have not chosen do not disturb the choices.
  lemma NewCaddiesKeepChoiceLaw(reqs: seq<Req>, metas: seq<Meta>, caddies: seq<Caddy>, mt: Meta, added: seq<Caddy>)
    requires forall m :: 0 <= m < |metas| ==> metas[m].req < |reqs|
    requires forall c :: 0 <= c < |caddies| ==> caddies[c].mt < |metas|
    requires ChoiceLaw(reqs, metas, caddies) && mt.req < |reqs|
    requires forall i :: 0 <= i < |added| ==> added[i].mt == |metas| && !Chosen(added[i])
    ensures ChoiceLaw(reqs, metas + [mt], caddies + added)
  {
    var metas', caddies' := metas + [mt], caddies + added;
    forall x | 0 <= x < |reqs| && reqs[x].allocation.Some?
      ensures exists c :: 0 <= c < |caddies'| && Chosen(caddies'[c]) && metas'[caddies'[c].mt].req == x
    {
      var c :| 0 <= c < |caddies| && Chosen(caddies[c]) && metas[caddies[c].mt].req == x;
      assert Chosen(caddies'[c]);
    }
  }

  // A request that is assigned nothing may be marked unavailable.
  lemma UnassignedKeepsChoiceLaw(cfg: Config, reqs: seq<Req>, metas: seq<Meta>, caddies: seq<Caddy>, r: nat, q: Req)
    requires forall m :: 0 <= m < |metas| ==> metas[m].req < |reqs|
    requires forall c :: 0 <= c < |caddies| ==> caddies[c].mt < |metas|
    requires ChoiceLaw(reqs, metas, caddies) && SingleMetaLaw(cfg, reqs) && r < |reqs|
    requires reqs[r].allocation.None? && q.allocation.None?
    requires q.status == reqs[r].status || q.status.NotAvailable?
    ensures ChoiceLaw(reqs[r := q], metas, caddies) && SingleMetaLaw(cfg, reqs[r := q])
  {
    var reqs' := reqs[r := q];
    forall x | 0 <= x < |reqs'| && reqs'[x].allocation.Some?
      ensures exists c :: 0 <= c < |caddies| && Chosen(caddies[c]) && metas[caddies[c].mt].req == x
    {
      assert reqs[x].allocation.Some?;
    }
  }

  lemma MetaBaseScheduleKeepsChoiceLaw(cfg: Config, st: State, r: nat, accepts: seq<bool>)
    requires WellIndexed(st) && ChoiceLaw(st.reqs, st.metas, st.caddies) && SingleMetaLaw(cfg, st.reqs)
    requires r < |st.reqs| && |accepts| == |cfg.metas| && st.reqs[r].allocation.None?
    ensures var st' := DoMetaBaseSchedule(cfg, st, r, accepts);
            WellIndexed(st') && ChoiceLaw(st'.reqs, st'.metas, st'.caddies) && SingleMetaLaw(cfg, st'.reqs)
  {
    var st' := DoMetaBaseSchedule(cfg, st, r, accepts);
    NewCaddiesShape(cfg, accepts, |st.metas|);
    NewCaddiesAdded(cfg, st, r, accepts);
    UnassignedKeepsChoiceLaw(cfg, st.reqs, st.metas, st.caddies, r, st'.reqs[r]);
    NewCaddiesKeepChoiceLaw(st'.reqs, st.metas, st.caddies, st'.metas[|st.metas|],
      NewCaddies(cfg, accepts, |st.metas|));
    assert st'.reqs == st.reqs[r := st'.reqs[r]] && st'.metas == st.metas + [st'.metas[|st.metas|]];
  }

  lemma NewCaddiesKeepAnswers(cfg: Config, caddies: seq<Caddy>, scheds: seq<SchedCaddy>, added: seq<Caddy>)
    requires forall s :: 0 <= s < |scheds| ==> scheds[s].trk < |caddies|
    requires TrackerLaw(cfg, caddies, scheds) && AnswerLaw(caddies, scheds) && Shapes(caddies) && Shapes(added)
    requires forall i :: 0 <= i < |added| ==> added[i].trk.None? && added[i].allocations == []
    ensures TrackerLaw(cfg, caddies + added, scheds)
    ensures AnswerLaw(caddies + added, scheds)
    ensures Shapes(caddies + added)
  {
  }

  lemma MetaBaseScheduleKeepsInv(cfg: Config, st: State, r: nat, accepts: seq<bool>)
    requires Inv(cfg, st) && Enabled(cfg, st, MetaBaseSchedule(r, accepts))
    ensures Inv(cfg, DoMetaBaseSchedule(cfg, st, r, accepts))
  {
    MetaBaseScheduleKeepsMetaLaw(cfg, st, r, accepts);
    MetaBaseScheduleKeepsReqLaw(cfg, st, r, accepts);
    NoAllocationBeforeMeta(st, r);
    MetaBaseScheduleKeepsChoiceLaw(cfg, st, r, accepts);
    NewCaddiesShape(cfg, accepts, |st.metas|);
    NewCaddiesAdded(cfg, st, r, accepts);
    NewCaddiesKeepAnswers(cfg, st.caddies, st.scheds, NewCaddies(cfg, accepts, |st.metas|));
    MetaBaseScheduleFrame(cfg, st, r, accepts);
  }

  lemma MetaBaseScheduleFrame(cfg: Config, st: State, r: nat, accepts: seq<bool>)
    requires WellIndexed(st) && SchedReqLaw(st.metas, st.caddies, st.scheds)
    requires r < |st.reqs| && |accepts| == |cfg.metas|
    requires WellIndexed(DoMetaBaseSchedule(cfg, st, r, accepts))
    ensures var st' := DoMetaBaseSchedule(cfg, st, r, accepts);
            SchedReqLaw(st'.metas, st'.caddies, st'.scheds) && st'.scheds == st.scheds
  {
    NewCaddiesAdded(cfg, st, r, accepts);
  }

  // ---- Updating one caddy, in any of the handlers below ----

  // A caddy that stays with its meta object and keeps its flag and liveness does not disturb the
  // counts.
  lemma CaddyUpdateKeepsMetaLaw(cfg: Config, metas: seq<Meta>, caddies: seq<Caddy>, c: nat, cd: Caddy)
    requires MetaLaw(cfg, metas, caddies) && c < |caddies|
    requires cd.mt == caddies[c].mt && cd.live == caddies[c].live && cd.flag == caddies[c].flag
    requires IsBase(cd) <==> IsBase(caddies[c])
    ensures MetaLaw(cfg, metas, caddies[c := cd])
  {
    var caddies' := caddies[c := cd];
    forall m | 0 <= m < |metas|
      ensures MetaLawAt(cfg, metas, caddies', m)
    {
      assert MetaLawAt(cfg, metas, caddies, m);
      SumUpdate(caddies, c, cd, OfMeta(m));
      SumUpdate(caddies, c, cd, LiveFor(m));
      SumUpdate(caddies, c, cd, FlagOf(m));
    }
  }

  // A caddy that has not chosen yet and does not choose now, or has chosen and keeps its list of
  // allocations, does not disturb the choices.
  lemma CaddyUpdateKeepsChoiceLaw(reqs: seq<Req>, metas: seq<Meta>, caddies: seq<Caddy>, c: nat, cd: Caddy)
    requires forall m :: 0 <= m < |metas| ==> metas[m].req < |reqs|
    requires forall x :: 0 <= x < |caddies| ==> caddies[x].mt < |metas|
    requires ChoiceLaw(reqs, metas, caddies) && c < |caddies| && cd.mt == caddies[c].mt
    requires Chosen(cd) <==> Chosen(caddies[c])
    requires Chosen(cd) ==> cd.allocations == caddies[c].allocations
    ensures ChoiceLaw(reqs, metas, caddies[c := cd])
  {
    var caddies' := caddies[c := cd];
    forall r | 0 <= r < |reqs| && reqs[r].allocation.Some?
      ensures exists x :: 0 <= x < |caddies'| && Chosen(caddies'[x]) && metas[caddies'[x].mt].req == r
    {
      var x :| 0 <= x < |caddies| && Chosen(caddies[x]) && metas[caddies[x].mt].req == r;
      assert Chosen(caddies'[x]);
    }
  }

  // Only the status of one request changes, while one of its meta objects is live.
  lemma StatusChangeKeepsReqLaw(st: State, r: nat, q: Req)
    requires ReqLaw(st.reqs, st.metas, st.fifo, st.table) && r < |st.reqs|
    requires q == st.reqs[r].(status := q.status, allocation := q.allocation)
    requires Sum(st.metas, LiveOf(r)) > 0
    ensures ReqLaw(st.reqs[r := q], st.metas, st.fifo, st.table)
  {
    var reqs' := st.reqs[r := q];
    forall x | 0 <= x < |st.reqs|
      ensures ReqLawAt(reqs', st.metas, st.fifo, st.table, x)
    {
      assert ReqLawAt(st.reqs, st.metas, st.fifo, st.table, x);
    }
  }

  // ---- sched in meta_pri.c ----

  lemma PriScheduleFrame(cfg: Config, st: State, c: nat)
    requires WellIndexed(st) && Shapes(st.caddies) && SchedReqLaw(st.metas, st.caddies, st.scheds)
    requires TrackerLaw(cfg, st.caddies, st.scheds) && AnswerLaw(st.caddies, st.scheds)
    requires Enabled(cfg, st, PriSchedule(c))
    ensures var st' := DoPriSchedule(st, c);
      && WellIndexed(st') && Shapes(st'.caddies) && SchedReqLaw(st'.metas, st'.caddies, st'.scheds)
      && TrackerLaw(cfg, st'.caddies, st'.scheds) && AnswerLaw(st'.caddies, st'.scheds)
      && !IsBase(st.caddies[c]) && !IsBase(st'.caddies[c])
      && !Chosen(st.caddies[c]) && !Chosen(st'.caddies[c])
  {
    var st' := DoPriSchedule(st, c);
    assert CaddyShape(st.caddies[c]);
    AnswerLawWithRunning(st.caddies, st.scheds, st'.caddies, st'.scheds);
  }

  lemma PriScheduleKeepsInv(cfg: Config, st: State, c: nat)
    requires Inv(cfg, st) && Enabled(cfg, st, PriSchedule(c))
    ensures Inv(cfg, DoPriSchedule(st, c))
  {
    var cd := DoPriSchedule(st, c).caddies[c];
    PriScheduleFrame(cfg, st, c);
    CaddyUpdateKeepsMetaLaw(cfg, st.metas, st.caddies, c, cd);
    CaddyUpdateKeepsChoiceLaw(st.reqs, st.metas, st.caddies, c, cd);
  }

  // ---- dsched_sched_base_schedule ----

  // What calling the schedulers creates.
  lemma {:induction false} FanSchedsShape(mods: seq<SchedModule>, accepts: seq<bool>, c: nat, r: nat, n: nat)
    requires n <= |mods| == |accepts|
    ensures var f := FanScheds(mods, accepts, c, r, n);
      && |f.created| + f.refused + Sum(mods[..n], AbsentModule()) == n
      && f.order == 1 + Sum(mods[..n], PresentModule())
      && (forall i :: 0 <= i < |f.created| ==>
            var sc := f.created[i];
            && sc.ev.Run? && sc.trk == c && sc.req == r && sc.alloc.None? && sc.mod < n
            && !mods[sc.mod].Absent? && sc.order == 1 + Sum(mods[..sc.mod], PresentModule()))
      && (forall i, j :: 0 <= i < j < |f.created| ==> f.created[i].mod < f.created[j].mod)
  {
    if n > 0 {
      FanSchedsShape(mods, accepts, c, r, n - 1);
      SumTake(mods, n - 1, AbsentModule());
      SumTake(mods, n - 1, PresentModule());
    }
  }

  lemma SchedBaseKeepsTrackerLaw(cfg: Config, caddies: seq<Caddy>, scheds: seq<SchedCaddy>, c: nat, cd: Caddy,
      f: SchedFan)
    requires TrackerLaw(cfg, caddies, scheds) && c < |caddies|
    requires forall s :: 0 <= s < |scheds| ==> scheds[s].trk != c
    requires forall i :: 0 <= i < |f.created| ==> f.created[i].ev.Run? && f.created[i].trk == c
    requires |f.created| + f.refused + AbsentScheds(cfg) == |cfg.scheds|
    requires cd.trk == Some(Tracker(|cfg.scheds|, f.refused))
    ensures TrackerLaw(cfg, caddies[c := cd], scheds + f.created)
  {
    forall x | 0 <= x < |caddies|
      ensures Sum(scheds + f.created, PendingFor(x))
           == if x == c then |f.created| else Sum(scheds, PendingFor(x))
    {
      SumConcat(scheds, f.created, PendingFor(x));
      if x == c {
        SumZero(scheds, PendingFor(c));
        SumConstant(f.created, PendingFor(c), 1);
      } else {
        SumZero(f.created, PendingFor(x));
      }
    }
  }

  lemma SchedBaseKeepsOrderLaw(cfg: Config, scheds: seq<SchedCaddy>, accepts: seq<bool>, c: nat, r: nat)
    requires OrderLaw(cfg, scheds) && |accepts| == |cfg.scheds|
    requires forall s :: 0 <= s < |scheds| ==> scheds[s].trk != c
    ensures OrderLaw(cfg, scheds + FanScheds(cfg.scheds, accepts, c, r, |cfg.scheds|).created)
  {
    FanSchedsShape(cfg.scheds, accepts, c, r, |cfg.scheds|);
  }

  // With a single meta module nothing can have been assigned before the schedulers are called.
  lemma NoAllocationBeforeSchedulers(cfg: Config, st: State, c: nat)
    requires Inv(cfg, st) && c < |st.caddies| && st.caddies[c].ev.SchedBase? && |cfg.metas| == 1
    ensures st.reqs[st.metas[st.caddies[c].mt].req].allocation.None?
  {
    var m := st.caddies[c].mt;
    var r := st.metas[m].req;
    assert CaddyShape(st.caddies[c]);
    if st.reqs[r].allocation.Some? {
      var x :| 0 <= x < |st.caddies| && Chosen(st.caddies[x]) && st.metas[st.caddies[x].mt].req == r;
      OneMetaPerRequest(cfg, st, st.caddies[x].mt, m);
      assert MetaLawAt(cfg, st.metas, st.caddies, m);
      if x < c {
        SumAtLeastTwo(st.caddies, x, c, OfMeta(m));
      } else {
        SumAtLeastTwo(st.caddies, c, x, OfMeta(m));
      }
      assert false;
    }
  }

  lemma SchedBaseScheduleKeepsInv(cfg: Config, st: State, c: nat, accepts: seq<bool>)
    requires Inv(cfg, st) && Enabled(cfg, st, SchedBaseSchedule(c, accepts))
    ensures Inv(cfg, DoSchedBaseSchedule(cfg, st, c, accepts))
  {
    var st' := DoSchedBaseSchedule(cfg, st, c, accepts);
    var cd := st.caddies[c];
    var r := st.metas[cd.mt].req;
    var f := FanScheds(cfg.scheds, accepts, c, r, |cfg.scheds|);
    assert CaddyShape(cd);
    assert cfg.scheds[..|cfg.scheds|] == cfg.scheds;
    FanSchedsShape(cfg.scheds, accepts, c, r, |cfg.scheds|);
    LiveCaddyHasLiveMeta(cfg, st, c);
    LiveMetaHoldsRequest(cfg, st, cd.mt);
    if |cfg.metas| == 1 {
      NoAllocationBeforeSchedulers(cfg, st, c);
    }
    StatusChangeKeepsReqLaw(st, r, st'.reqs[r]);
    assert st'.reqs == st.reqs[r := st'.reqs[r]];
    assert st'.caddies == st.caddies[c := st'.caddies[c]];
    CaddyUpdateKeepsMetaLaw(cfg, st.metas, st.caddies, c, st'.caddies[c]);
    SchedBaseKeepsTrackerLaw(cfg, st.caddies, st.scheds, c, st'.caddies[c], f);
    SchedBaseKeepsOrderLaw(cfg, st.scheds, accepts, c, r);
    SchedBaseKeepsIndices(cfg, st, c, accepts);
    SchedBaseKeepsChoices(cfg, st, st', c, accepts);
    SchedBaseKeepsAnswers(cfg, st, st', c, accepts);
  }

  // What calling the schedulers leaves alone.
  lemma SchedBaseUpdates(cfg: Config, st: State, c: nat, accepts: seq<bool>)
    requires WellIndexed(st) && Enabled(cfg, st, SchedBaseSchedule(c, accepts)) && CaddyShape(st.caddies[c])
    ensures var st' := DoSchedBaseSchedule(cfg, st, c, accepts);
            var cd := st'.caddies[c];
      && st'.caddies == st.caddies[c := cd] && st'.metas == st.metas && st.scheds <= st'.scheds
      && cd.mt == st.caddies[c].mt && cd.allocations == st.caddies[c].allocations && cd.trk.Some?
      && CaddyShape(cd) && !Chosen(cd) && !Chosen(st.caddies[c])
      && (forall s :: |st.scheds| <= s < |st'.scheds| ==>
            st'.scheds[s].ev.Run? && st'.scheds[s].trk == c && st'.scheds[s].req == st.metas[cd.mt].req)
      && |st'.reqs| == |st.reqs|
      && (forall x :: 0 <= x < |st.reqs| ==>
            && st'.reqs[x].allocation == st.reqs[x].allocation
            && (x != st.metas[cd.mt].req ==> st'.reqs[x] == st.reqs[x])
            && (st'.reqs[x].status == st.reqs[x].status || st'.reqs[x].status.NotAvailable?))
  {
    FanSchedsShape(cfg.scheds, accepts, c, st.metas[st.caddies[c].mt].req, |cfg.scheds|);
  }

  lemma SchedBaseKeepsIndices(cfg: Config, st: State, c: nat, accepts: seq<bool>)
    requires WellIndexed(st) && Enabled(cfg, st, SchedBaseSchedule(c, accepts)) && CaddyShape(st.caddies[c])
    requires Shapes(st.caddies) && SchedReqLaw(st.metas, st.caddies, st.scheds)
    ensures var st' := DoSchedBaseSchedule(cfg, st, c, accepts);
            WellIndexed(st') && Shapes(st'.caddies) && SchedReqLaw(st'.metas, st'.caddies, st'.scheds)
  {
    SchedBaseUpdates(cfg, st, c, accepts);
  }

  lemma SchedBaseKeepsChoices(cfg: Config, st: State, st': State, c: nat, accepts: seq<bool>)
    requires WellIndexed(st) && Enabled(cfg, st, SchedBaseSchedule(c, accepts)) && CaddyShape(st.caddies[c])
    requires st' == DoSchedBaseSchedule(cfg, st, c, accepts) && WellIndexed(st')
    requires ChoiceLaw(st.reqs, st.metas, st.caddies) && SingleMetaLaw(cfg, st.reqs)
    requires |cfg.metas| == 1 ==> st.reqs[st.metas[st.caddies[c].mt].req].allocation.None?
    ensures ChoiceLaw(st'.reqs, st'.metas, st'.caddies) && SingleMetaLaw(cfg, st'.reqs)
  {
    SchedBaseUpdates(cfg, st, c, accepts);
    CaddyUpdateKeepsChoiceLaw(st.reqs, st.metas, st.caddies, c, st'.caddies[c]);
    assert ChoiceLaw(st.reqs, st.metas, st'.caddies);
    forall r | 0 <= r < |st'.reqs| && st'.reqs[r].allocation.Some?
      ensures exists x :: 0 <= x < |st'.caddies| && Chosen(st'.caddies[x]) && st'.metas[st'.caddies[x].mt].req == r
    {
      assert st.reqs[r].allocation.Some?;
    }
  }

  lemma SchedBaseKeepsAnswers(cfg: Config, st: State, st': State, c: nat, accepts: seq<bool>)
    requires WellIndexed(st) && Enabled(cfg, st, SchedBaseSchedule(c, accepts)) && CaddyShape(st.caddies[c])
    requires st' == DoSchedBaseSchedule(cfg, st, c, accepts) && WellIndexed(st')
    requires AnswerLaw(st.caddies, st.scheds)
    ensures AnswerLaw(st'.caddies, st'.scheds)
  {
    SchedBaseUpdates(cfg, st, c, accepts);
    AnswerLawWithRunning(st.caddies, st.scheds, st'.caddies, st'.scheds);
  }

  // Schedulers that have yet to run do not disturb the answers.
  lemma AnswerLawWithRunning(caddies: seq<Caddy>, scheds: seq<SchedCaddy>, caddies': seq<Caddy>,
      scheds': seq<SchedCaddy>)
    requires forall s :: 0 <= s < |scheds| ==> scheds[s].trk < |caddies|
    requires forall s :: 0 <= s < |scheds'| ==> scheds'[s].trk < |caddies'|
    requires AnswerLaw(caddies, scheds)
    requires |caddies'| == |caddies| && forall c :: 0 <= c < |caddies| ==>
      caddies'[c].allocations == caddies[c].allocations
    requires scheds <= scheds' && forall s :: |scheds| <= s < |scheds'| ==> scheds'[s].ev.Run?
    ensures AnswerLaw(caddies', scheds')
  {
    forall c, a | 0 <= c < |caddies'| && a in caddies'[c].allocations
      ensures exists s :: 0 <= s < |scheds'| && AnsweredWith(scheds'[s], c, a)
    {
      var s :| 0 <= s < |scheds| && AnsweredWith(scheds[s], c, a);
      assert AnsweredWith(scheds'[s], c, a);
    }
  }

  // ---- sched in sched_fifo.c, and other schedulers ----

  // The FIFO appends the request of a live meta object and takes a reference to it.
  lemma FifoAppendKeepsReqLaw(st: State, r: nat)
    requires ReqLaw(st.reqs, st.metas, st.fifo, st.table) && r < |st.reqs|
    requires Sum(st.metas, MetaOf(r)) > 0
    ensures ReqLaw(st.reqs[r := st.reqs[r].(refs := st.reqs[r].refs + 1)], st.metas, st.fifo + [r], st.table)
  {
    var reqs' := st.reqs[r := st.reqs[r].(refs := st.reqs[r].refs + 1)];
    forall x | 0 <= x < |st.reqs|
      ensures ReqLawAt(reqs', st.metas, st.fifo + [r], st.table, x)
    {
      assert ReqLawAt(st.reqs, st.metas, st.fifo, st.table, x);
      SumAppend(st.fifo, r, Is(x));
      assert Is(x)(r) == Bit(r == x);
    }
  }

  // A scheduler caddy that is still outstanding after the update stays counted.
  lemma StillPendingKeepsTrackerLaw(cfg: Config, caddies: seq<Caddy>, scheds: seq<SchedCaddy>, s: nat, sc: SchedCaddy)
    requires TrackerLaw(cfg, caddies, scheds) && s < |scheds|
    requires sc.trk == scheds[s].trk && !sc.ev.Idle? && !scheds[s].ev.Idle?
    ensures TrackerLaw(cfg, caddies, scheds[s := sc])
  {
    forall c | 0 <= c < |caddies|
      ensures Sum(scheds[s := sc], PendingFor(c)) == Sum(scheds, PendingFor(c))
    {
      SumUpdate(scheds, s, sc, PendingFor(c));
    }
  }

  lemma AnswerLawWhileRunning(caddies: seq<Caddy>, scheds: seq<SchedCaddy>, s: nat, sc: SchedCaddy)
    requires forall x :: 0 <= x < |scheds| ==> scheds[x].trk < |caddies|
    requires AnswerLaw(caddies, scheds) && s < |scheds|
    requires sc.trk == scheds[s].trk && !sc.ev.Idle? && !scheds[s].ev.Idle?
    ensures AnswerLaw(caddies, scheds[s := sc])
  {
    var scheds' := scheds[s := sc];
    forall c, a | 0 <= c < |caddies| && a in caddies[c].allocations
      ensures exists x :: 0 <= x < |scheds'| && AnsweredWith(scheds'[x], c, a)
    {
      var x :| 0 <= x < |scheds| && AnsweredWith(scheds[x], c, a);
      assert AnsweredWith(scheds'[x], c, a);
    }
  }

  lemma RunSchedulerKeepsOrderLaw(cfg: Config, st: State, l: Label)
    requires WellIndexed(st) && OrderLaw(cfg, st.scheds) && l.RunScheduler? && Enabled(cfg, st, l)
    ensures OrderLaw(cfg, DoRunScheduler(st, l.s, l.pool, l.avail, l.answer).scheds)
  {
    var st' := DoRunScheduler(st, l.s, l.pool, l.avail, l.answer);
    assert forall s :: 0 <= s < |st.scheds| ==>
      st'.scheds[s].trk == st.scheds[s].trk && st'.scheds[s].mod == st.scheds[s].mod
      && st'.scheds[s].order == st.scheds[s].order;
  }

  lemma RunSchedulerFrame(cfg: Config, st: State, l: Label)
    requires WellIndexed(st) && SchedReqLaw(st.metas, st.caddies, st.scheds)
    requires l.RunScheduler? && Enabled(cfg, st, l)
    ensures var st' := DoRunScheduler(st, l.s, l.pool, l.avail, l.answer);
            WellIndexed(st') && SchedReqLaw(st'.metas, st'.caddies, st'.scheds)
  {
    var st' := DoRunScheduler(st, l.s, l.pool, l.avail, l.answer);
    assert forall s :: 0 <= s < |st.scheds| ==> st'.scheds[s].trk == st.scheds[s].trk;
    assert forall i :: 0 <= i < |st'.fifo| ==> st'.fifo[i] < |st.reqs|;
  }

  lemma RunSchedulerKeepsChoiceLaw(cfg: Config, st: State, l: Label)
    requires WellIndexed(st) && ChoiceLaw(st.reqs, st.metas, st.caddies) && SingleMetaLaw(cfg, st.reqs)
    requires l.RunScheduler? && Enabled(cfg, st, l)
    requires WellIndexed(DoRunScheduler(st, l.s, l.pool, l.avail, l.answer))
    ensures var st' := DoRunScheduler(st, l.s, l.pool, l.avail, l.answer);
            ChoiceLaw(st'.reqs, st'.metas, st'.caddies) && SingleMetaLaw(cfg, st'.reqs)
  {
    var st' := DoRunScheduler(st, l.s, l.pool, l.avail, l.answer);
    RequestUpdateKeepsChoiceLaw(cfg, st.reqs, st'.reqs, st.metas, st.metas, st.caddies);
  }

  // Requests that keep their status and allocation keep the choices.
  lemma RequestUpdateKeepsChoiceLaw(cfg: Config, reqs: seq<Req>, reqs': seq<Req>, metas: seq<Meta>, metas': seq<Meta>,
                                    caddies: seq<Caddy>)
    requires forall m :: 0 <= m < |metas| ==> metas[m].req < |reqs|
    requires forall x :: 0 <= x < |caddies| ==> caddies[x].mt < |metas|
    requires |reqs'| == |reqs| && |metas'| == |metas|
    requires forall m :: 0 <= m < |metas| ==> metas'[m].req == metas[m].req
    requires forall r :: 0 <= r < |reqs| ==>
      reqs'[r].allocation == reqs[r].allocation && reqs'[r].status == reqs[r].status
    requires ChoiceLaw(reqs, metas, caddies) && SingleMetaLaw(cfg, reqs)
    ensures ChoiceLaw(reqs', metas', caddies) && SingleMetaLaw(cfg, reqs')
  {
    forall r | 0 <= r < |reqs'| && reqs'[r].allocation.Some?
      ensures exists x :: 0 <= x < |caddies| && Chosen(caddies[x]) && metas'[caddies[x].mt].req == r
    {
      var x :| 0 <= x < |caddies| && Chosen(caddies[x]) && metas[caddies[x].mt].req == r;
      assert metas'[caddies[x].mt].req == r;
    }
  }

  lemma RunSchedulerKeepsInv(cfg: Config, st: State, l: Label)
    requires Inv(cfg, st) && l.RunScheduler? && Enabled(cfg, st, l)
    ensures Inv(cfg, DoRunScheduler(st, l.s, l.pool, l.avail, l.answer))
  {
    var s, sc := l.s, st.scheds[l.s];
    PendingSchedIsAwaited(cfg, st, s);
    LiveCaddyHasLiveMeta(cfg, st, sc.trk);
    LiveMetaHoldsRequest(cfg, st, st.caddies[sc.trk].mt);
    RunSchedulerFrame(cfg, st, l);
    RunSchedulerKeepsOrderLaw(cfg, st, l);
    RunSchedulerKeepsChoiceLaw(cfg, st, l);
    RunSchedulerKeepsCounts(cfg, st, l);
  }

  lemma RunSchedulerKeepsCounts(cfg: Config, st: State, l: Label)
    requires WellIndexed(st) && TrackerLaw(cfg, st.caddies, st.scheds) && AnswerLaw(st.caddies, st.scheds)
    requires ReqLaw(st.reqs, st.metas, st.fifo, st.table)
    requires l.RunScheduler? && Enabled(cfg, st, l) && Sum(st.metas, MetaOf(st.scheds[l.s].req)) > 0
    requires WellIndexed(DoRunScheduler(st, l.s, l.pool, l.avail, l.answer))
    ensures var st' := DoRunScheduler(st, l.s, l.pool, l.avail, l.answer);
            && TrackerLaw(cfg, st'.caddies, st'.scheds) && AnswerLaw(st'.caddies, st'.scheds)
            && ReqLaw(st'.reqs, st'.metas, st'.fifo, st'.table)
            && st'.caddies == st.caddies && st'.metas == st.metas
  {
    var s := l.s;
    var st' := DoRunScheduler(st, s, l.pool, l.avail, l.answer);
    assert st'.scheds == st.scheds[s := st'.scheds[s]];
    StillPendingKeepsTrackerLaw(cfg, st.caddies, st.scheds, s, st'.scheds[s]);
    AnswerLawWhileRunning(st.caddies, st.scheds, s, st'.scheds[s]);
    if st.scheds[s].fifo {
      FifoAppendKeepsReqLaw(st, st.scheds[s].req);
    }
  }

  // ---- dsched_sched_base_cbfunc ----

  lemma ResponseKeepsTrackerLaw(cfg: Config, caddies: seq<Caddy>, scheds: seq<SchedCaddy>, s: nat, cd: Caddy)
    requires TrackerLaw(cfg, caddies, scheds) && s < |scheds| && !scheds[s].ev.Idle?
    requires scheds[s].trk < |caddies| && caddies[scheds[s].trk].trk.Some? && cd.trk.Some?
    requires cd.trk.value ==
      caddies[scheds[s].trk].trk.value.(nresponded := caddies[scheds[s].trk].trk.value.nresponded + 1)
    ensures TrackerLaw(cfg, caddies[scheds[s].trk := cd], scheds[s := scheds[s].(ev := SchedEvent.Idle)])
  {
    var sc := scheds[s].(ev := SchedEvent.Idle);
    forall c | 0 <= c < |caddies|
      ensures Sum(scheds[s := sc], PendingFor(c)) + Bit(c == sc.trk) == Sum(scheds, PendingFor(c))
    {
      SumUpdate(scheds, s, sc, PendingFor(c));
    }
  }

  lemma ResponseKeepsAnswerLaw(caddies: seq<Caddy>, scheds: seq<SchedCaddy>, s: nat, cd: Caddy)
    requires forall x :: 0 <= x < |scheds| ==> scheds[x].trk < |caddies|
    requires AnswerLaw(caddies, scheds) && s < |scheds| && !scheds[s].ev.Idle?
    requires cd.allocations == caddies[scheds[s].trk].allocations
                               + if scheds[s].alloc.Some? then [scheds[s].alloc.value] else []
    ensures AnswerLaw(caddies[scheds[s].trk := cd], scheds[s := scheds[s].(ev := SchedEvent.Idle)])
  {
    var caddies' := caddies[scheds[s].trk := cd];
    var scheds' := scheds[s := scheds[s].(ev := SchedEvent.Idle)];
    forall c, a | 0 <= c < |caddies'| && a in caddies'[c].allocations
      ensures exists x :: 0 <= x < |scheds'| && AnsweredWith(scheds'[x], c, a)
    {
      if a in caddies[c].allocations {
        var x :| 0 <= x < |scheds| && AnsweredWith(scheds[x], c, a);
        assert AnsweredWith(scheds'[x], c, a);
      } else {
        assert AnsweredWith(scheds'[s], c, a);
      }
    }
  }

  lemma SchedBaseCallbackFrame(cfg: Config, st: State, s: nat)
    requires WellIndexed(st) && Shapes(st.caddies) && SchedReqLaw(st.metas, st.caddies, st.scheds)
    requires OrderLaw(cfg, st.scheds) && Enabled(cfg, st, SchedBaseCallback(s))
    requires var cd := st.caddies[st.scheds[s].trk];
             cd.live && cd.ev.Idle? && cd.trk.value.nresponded < cd.trk.value.nactive
    ensures var st' := DoSchedBaseCallback(st, s);
            && WellIndexed(st') && Shapes(st'.caddies) && SchedReqLaw(st'.metas, st'.caddies, st'.scheds)
            && OrderLaw(cfg, st'.scheds)
            && !Chosen(st.caddies[st.scheds[s].trk]) && !Chosen(st'.caddies[st.scheds[s].trk])
  {
    assert CaddyShape(st.caddies[st.scheds[s].trk]);
  }

  lemma SchedBaseCallbackKeepsInv(cfg: Config, st: State, s: nat)
    requires Inv(cfg, st) && Enabled(cfg, st, SchedBaseCallback(s))
    ensures Inv(cfg, DoSchedBaseCallback(st, s))
  {
    var c := st.scheds[s].trk;
    PendingSchedIsAwaited(cfg, st, s);
    var cd := DoSchedBaseCallback(st, s).caddies[c];
    SchedBaseCallbackFrame(cfg, st, s);
    ResponseKeepsTrackerLaw(cfg, st.caddies, st.scheds, s, cd);
    ResponseKeepsAnswerLaw(st.caddies, st.scheds, s, cd);
    CaddyUpdateKeepsMetaLaw(cfg, st.metas, st.caddies, c, cd);
    CaddyUpdateKeepsChoiceLaw(st.reqs, st.metas, st.caddies, c, cd);
  }

  // ---- sched_cbfunc in meta_pri.c ----

  // Before the caddy that may assign has chosen, nothing is assigned.
  lemma NothingChosenYet(cfg: Config, st: State, c: nat)
    requires Inv(cfg, st) && c < |st.caddies| && st.caddies[c].flag && !Chosen(st.caddies[c])
    ensures st.reqs[st.metas[st.caddies[c].mt].req].allocation.None?
  {
    var r := st.metas[st.caddies[c].mt].req;
    if st.reqs[r].allocation.Some? {
      var x :| 0 <= x < |st.caddies| && Chosen(st.caddies[x]) && st.metas[st.caddies[x].mt].req == r;
      OneMetaPerRequest(cfg, st, st.caddies[x].mt, st.caddies[c].mt);
      OneFlagPerMeta(cfg, st, x, c);
      assert false;
    }
  }

  // No other caddy has chosen for the request of a caddy that is about to choose.
  lemma NoOtherChoice(cfg: Config, st: State, c: nat, x: nat)
    requires Inv(cfg, st) && c < |st.caddies| && x < |st.caddies| && c != x
    requires st.caddies[c].flag && Chosen(st.caddies[x])
    ensures st.metas[st.caddies[x].mt].req != st.metas[st.caddies[c].mt].req
  {
    if st.metas[st.caddies[x].mt].req == st.metas[st.caddies[c].mt].req {
      OneMetaPerRequest(cfg, st, st.caddies[x].mt, st.caddies[c].mt);
      OneFlagPerMeta(cfg, st, x, c);
      assert false;
    }
  }

  lemma PriCallbackKeepsChoiceLaw(cfg: Config, st: State, c: nat)
    requires Inv(cfg, st) && Enabled(cfg, st, PriCallback(c))
    ensures var st' := DoPriCallback(st, c);
            ChoiceLaw(st'.reqs, st'.metas, st'.caddies)
  {
    var st' := DoPriCallback(st, c);
    var cd := st.caddies[c];
    var r := st.metas[cd.mt].req;
    assert CaddyShape(cd);
    if !cd.flag {
      CaddyUpdateKeepsChoiceLaw(st.reqs, st.metas, st.caddies, c, st'.caddies[c]);
      return;
    }
    NothingChosenYet(cfg, st, c);
    forall x | 0 <= x < |st'.caddies| && Chosen(st'.caddies[x])
      ensures st'.reqs[st'.metas[st'.caddies[x].mt].req].allocation == Best(st'.caddies[x].allocations)
    {
      if x != c {
        NoOtherChoice(cfg, st, c, x);
      }
    }
    forall q | 0 <= q < |st'.reqs| && st'.reqs[q].allocation.Some?
      ensures exists x :: 0 <= x < |st'.caddies| && Chosen(st'.caddies[x]) && st'.metas[st'.caddies[x].mt].req == q
    {
      if q == r {
        assert Chosen(st'.caddies[c]);
      } else {
        var x :| 0 <= x < |st.caddies| && Chosen(st.caddies[x]) && st.metas[st.caddies[x].mt].req == q;
        assert Chosen(st'.caddies[x]);
      }
    }
  }

  lemma PriCallbackFrame(cfg: Config, st: State, c: nat)
    requires WellIndexed(st) && Shapes(st.caddies) && SchedReqLaw(st.metas, st.caddies, st.scheds)
    requires TrackerLaw(cfg, st.caddies, st.scheds) && AnswerLaw(st.caddies, st.scheds)
    requires SingleMetaLaw(cfg, st.reqs) && Enabled(cfg, st, PriCallback(c))
    ensures var st' := DoPriCallback(st, c);
            && WellIndexed(st') && Shapes(st'.caddies) && SchedReqLaw(st'.metas, st'.caddies, st'.scheds)
            && TrackerLaw(cfg, st'.caddies, st'.scheds) && AnswerLaw(st'.caddies, st'.scheds)
            && SingleMetaLaw(cfg, st'.reqs)
            && (IsBase(st'.caddies[c]) <==> IsBase(st.caddies[c]))
  {
    var st' := DoPriCallback(st, c);
    assert CaddyShape(st.caddies[c]);
    AnswerLawWithRunning(st.caddies, st.scheds, st'.caddies, st'.scheds);
  }

  lemma PriCallbackKeepsInv(cfg: Config, st: State, c: nat)
    requires Inv(cfg, st) && Enabled(cfg, st, PriCallback(c))
    ensures Inv(cfg, DoPriCallback(st, c))
  {
    var st' := DoPriCallback(st, c);
    var cd := st.caddies[c];
    var r := st.metas[cd.mt].req;
    assert CaddyShape(cd);
    LiveCaddyHasLiveMeta(cfg, st, c);
    LiveMetaHoldsRequest(cfg, st, cd.mt);
    StatusChangeKeepsReqLaw(st, r, st'.reqs[r]);
    assert st'.reqs == st.reqs[r := st'.reqs[r]];
    PriCallbackFrame(cfg, st, c);
    CaddyUpdateKeepsMetaLaw(cfg, st.metas, st.caddies, c, st'.caddies[c]);
    PriCallbackKeepsChoiceLaw(cfg, st, c);
  }

  // ---- dsched_meta_base_cbfunc ----

  // One more response: the caddy is done and its meta object counts it.
  lemma ResponseKeepsMetaLaw(cfg: Config, metas: seq<Meta>, caddies: seq<Caddy>, c: nat, cd: Caddy, mt: Meta)
    requires MetaLaw(cfg, metas, caddies) && c < |caddies| && caddies[c].live
    requires cd == caddies[c].(ev := CaddyEvent.Idle, live := false) && caddies[c].ev.MetaBase?
    requires var m := metas[caddies[c].mt];
             mt == m.(nresponded := m.nresponded + 1, live := m.live && m.nresponded + 1 != m.nactive)
    ensures MetaLaw(cfg, metas[caddies[c].mt := mt], caddies[c := cd])
  {
    var metas', caddies' := metas[caddies[c].mt := mt], caddies[c := cd];
    SumAtLeast(caddies, c, LiveFor(cd.mt));
    forall m | 0 <= m < |metas|
      ensures MetaLawAt(cfg, metas', caddies', m)
    {
      assert MetaLawAt(cfg, metas, caddies, m);
      SumUpdate(caddies, c, cd, OfMeta(m));
      SumUpdate(caddies, c, cd, LiveFor(m));
      SumUpdate(caddies, c, cd, FlagOf(m));
    }
  }

  // A meta object that stays live keeps its request as it is.
  lemma MetaStaysKeepsReqLaw(st: State, m: nat, mt: Meta)
    requires ReqLaw(st.reqs, st.metas, st.fifo, st.table) && m < |st.metas|
    requires mt.req == st.metas[m].req && mt.live == st.metas[m].live
    ensures ReqLaw(st.reqs, st.metas[m := mt], st.fifo, st.table)
  {
    var metas' := st.metas[m := mt];
    forall x | 0 <= x < |st.reqs|
      ensures ReqLawAt(st.reqs, metas', st.fifo, st.table, x)
    {
      assert ReqLawAt(st.reqs, st.metas, st.fifo, st.table, x);
      SumUpdate(st.metas, m, mt, MetaOf(x));
      SumUpdate(st.metas, m, mt, LiveOf(x));
    }
  }

  // Retiring a request drops its two references, its meta object and its slot together.
  lemma RetireReqOk(q: Req, r: nat, table: seq<Option<nat>>, all: nat, queued: nat)
    requires ReqOk(q, r, table, all, 1, queued) && InTable(table, r, q.index)
    ensures ReqOk(Called(q, Complete, q.status).(refs := q.refs - 2), r, table[q.index := None], all, 0, queued)
  {
  }

  lemma RetireKeepsReqLaw(st: State, m: nat, mt: Meta)
    requires ReqLaw(st.reqs, st.metas, st.fifo, st.table) && m < |st.metas|
    requires st.metas[m].live && mt.req == st.metas[m].req < |st.reqs| && !mt.live
    requires InTable(st.table, mt.req, st.reqs[mt.req].index)
    requires Sum(st.metas, LiveOf(mt.req)) == 1
    ensures var q := st.reqs[mt.req];
            ReqLaw(st.reqs[mt.req := Called(q, Complete, q.status).(refs := q.refs - 2)], st.metas[m := mt],
                   st.fifo, st.table[q.index := None])
  {
    var r := mt.req;
    assert ReqLawAt(st.reqs, st.metas, st.fifo, st.table, r);
    RetireReqOk(st.reqs[r], r, st.table, Sum(st.metas, MetaOf(r)), Sum(st.fifo, Is(r)));
    RetireKeepsOthers(st, m, mt, Called(st.reqs[r], Complete, st.reqs[r].status).(refs := st.reqs[r].refs - 2));
  }

  lemma RetireKeepsOthers(st: State, m: nat, mt: Meta, q: Req)
    requires ReqLaw(st.reqs, st.metas, st.fifo, st.table) && m < |st.metas|
    requires st.metas[m].live && mt.req == st.metas[m].req < |st.reqs| && !mt.live
    requires q.index == st.reqs[mt.req].index && InTable(st.table, mt.req, q.index)
    requires Sum(st.metas, LiveOf(mt.req)) == 1
    requires ReqOk(q, mt.req, st.table[q.index := None], Sum(st.metas, MetaOf(mt.req)), 0, Sum(st.fifo, Is(mt.req)))
    ensures ReqLaw(st.reqs[mt.req := q], st.metas[m := mt], st.fifo, st.table[q.index := None])
  {
    var reqs', metas', table' := st.reqs[mt.req := q], st.metas[m := mt], st.table[q.index := None];
    forall x | 0 <= x < |st.reqs|
      ensures ReqLawAt(reqs', metas', st.fifo, table', x)
    {
      assert ReqLawAt(st.reqs, st.metas, st.fifo, st.table, x);
      SumUpdate(st.metas, m, mt, MetaOf(x));
      SumUpdate(st.metas, m, mt, LiveOf(x));
      assert x != mt.req ==> (InTable(table', x, st.reqs[x].index) <==> InTable(st.table, x, st.reqs[x].index));
    }
  }

  // What a response leaves alone: the meta objects' requests, and what requests were assigned.
  lemma MetaBaseCallbackUpdates(cfg: Config, st: State, c: nat)
    requires WellIndexed(st) && Enabled(cfg, st, MetaBaseCallback(c))
    ensures var st' := DoMetaBaseCallback(st, c);
            && st'.caddies == st.caddies[c := st'.caddies[c]] && |st'.metas| == |st.metas| && |st'.reqs| == |st.reqs|
            && st'.caddies[c] == st.caddies[c].(ev := CaddyEvent.Idle, live := false)
            && st'.scheds == st.scheds && st'.fifo == st.fifo
            && |st'.table| == |st.table|
            && (forall i :: 0 <= i < |st.table| && st'.table[i].Some? ==> st'.table[i] == st.table[i])
            && (forall m :: 0 <= m < |st.metas| ==> st'.metas[m].req == st.metas[m].req)
            && (forall r :: 0 <= r < |st.reqs| ==>
                  st'.reqs[r].allocation == st.reqs[r].allocation && st'.reqs[r].status == st.reqs[r].status)
  {
  }

  lemma MetaBaseCallbackKeepsChoices(cfg: Config, st: State, st': State, c: nat)
    requires WellIndexed(st) && WellIndexed(st') && ChoiceLaw(st.reqs, st.metas, st.caddies)
    requires SingleMetaLaw(cfg, st.reqs) && Enabled(cfg, st, MetaBaseCallback(c))
    requires st' == DoMetaBaseCallback(st, c)
    requires Chosen(st'.caddies[c]) <==> Chosen(st.caddies[c])
    ensures ChoiceLaw(st'.reqs, st'.metas, st'.caddies) && SingleMetaLaw(cfg, st'.reqs)
  {
    MetaBaseCallbackUpdates(cfg, st, c);
    CaddyUpdateKeepsChoiceLaw(st.reqs, st.metas, st.caddies, c, st'.caddies[c]);
    RequestUpdateKeepsChoiceLaw(cfg, st.reqs, st'.reqs, st.metas, st'.metas, st'.caddies);
  }

  lemma MetaBaseCallbackKeepsIndices(cfg: Config, st: State, c: nat)
    requires WellIndexed(st) && SchedReqLaw(st.metas, st.caddies, st.scheds)
    requires Enabled(cfg, st, MetaBaseCallback(c))
    ensures var st' := DoMetaBaseCallback(st, c);
            WellIndexed(st') && SchedReqLaw(st'.metas, st'.caddies, st'.scheds)
  {
    MetaBaseCallbackUpdates(cfg, st, c);
  }

  // A caddy that has responded keeps its answers and its tracker.
  lemma RespondedCaddyFrame(cfg: Config, caddies: seq<Caddy>, scheds: seq<SchedCaddy>, c: nat)
    requires forall s :: 0 <= s < |scheds| ==> scheds[s].trk < |caddies|
    requires Shapes(caddies) && TrackerLaw(cfg, caddies, scheds) && AnswerLaw(caddies, scheds)
    requires c < |caddies| && caddies[c].ev.MetaBase?
    ensures var caddies' := caddies[c := caddies[c].(ev := CaddyEvent.Idle, live := false)];
      && Shapes(caddies') && TrackerLaw(cfg, caddies', scheds) && AnswerLaw(caddies', scheds)
  {
    assert CaddyShape(caddies[c]);
    AnswerLawWithRunning(caddies, scheds, caddies[c := caddies[c].(ev := CaddyEvent.Idle, live := false)], scheds);
  }

  lemma MetaBaseCallbackKeepsCounts(cfg: Config, st: State, c: nat)
    requires Inv(cfg, st) && Enabled(cfg, st, MetaBaseCallback(c))
    ensures var st' := DoMetaBaseCallback(st, c);
            MetaLaw(cfg, st'.metas, st'.caddies) && ReqLaw(st'.reqs, st'.metas, st'.fifo, st'.table)
  {
    var m := st.caddies[c].mt;
    var mt := DoMetaBaseCallback(st, c).metas[m];
    var cd := DoMetaBaseCallback(st, c).caddies[c];
    assert CaddyShape(st.caddies[c]);
    LiveCaddyHasLiveMeta(cfg, st, c);
    LiveMetaHoldsRequest(cfg, st, m);
    ResponseKeepsMetaLaw(cfg, st.metas, st.caddies, c, cd, mt);
    if mt.live {
      MetaStaysKeepsReqLaw(st, m, mt);
    } else {
      RetireKeepsReqLaw(st, m, mt);
    }
  }

  lemma MetaBaseCallbackKeepsInv(cfg: Config, st: State, c: nat)
    requires Inv(cfg, st) && Enabled(cfg, st, MetaBaseCallback(c))
    ensures Inv(cfg, DoMetaBaseCallback(st, c))
  {
    var st' := DoMetaBaseCallback(st, c);
    MetaBaseCallbackUpdates(cfg, st, c);
    MetaBaseCallbackKeepsIndices(cfg, st, c);
    MetaBaseCallbackKeepsCounts(cfg, st, c);
    RespondedCaddyFrame(cfg, st.caddies, st.scheds, c);
    assert CaddyShape(st.caddies[c]);
    MetaBaseCallbackKeepsChoices(cfg, st, st', c);
  }

  // ---- All handlers ----

  lemma StepKeepsInv(cfg: Config, st: State, l: Label)
    requires Inv(cfg, st) && Enabled(cfg, st, l)
    ensures Inv(cfg, Apply(cfg, st, l))
  {
    match l
    case Arrive(infos, hasCallback) => ArriveKeepsInv(cfg, st, infos, hasCallback);
    case RequestInit(r, slot) => RequestInitKeepsInv(cfg, st, r, slot);
    case MetaBaseSchedule(r, accepts) => MetaBaseScheduleKeepsInv(cfg, st, r, accepts);
    case PriSchedule(c) => PriScheduleKeepsInv(cfg, st, c);
    case SchedBaseSchedule(c, accepts) => SchedBaseScheduleKeepsInv(cfg, st, c, accepts);
    case RunScheduler(_, _, _, _) => RunSchedulerKeepsInv(cfg, st, l);
    case SchedBaseCallback(s) => SchedBaseCallbackKeepsInv(cfg, st, s);
    case PriCallback(c) => PriCallbackKeepsInv(cfg, st, c);
    case MetaBaseCallback(c) => MetaBaseCallbackKeepsInv(cfg, st, c);
  }
}
