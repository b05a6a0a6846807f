// The scheduler daemon: the event handlers as they update the daemon's objects in place. Each is
// proved to make exactly its transition of the round, so serving any queued callback keeps the
// invariant.
module RoundDaemon {
  import opened Sums
  import opened Directives
  import opened Round
  import opened RoundInvariant
  import opened RoundSteps
  import FifoNodes

  class Daemon {
    const cfg: Config
    var reqs: seq<Req>
    var metas: seq<Meta>
    var caddies: seq<Caddy>
    var scheds: seq<SchedCaddy>
    // the FIFO component's static list
    var fifo: seq<nat>
    // dsched_globals.requests
    var table: seq<Option<nat>>

    ghost function Now(): State
      reads this
    {
      State(reqs, metas, caddies, scheds, fifo, table)
    }

    ghost predicate Valid()
      reads this
    {
      Inv(cfg, Now())
    }

    constructor (cfg: Config)
      ensures this.cfg == cfg && Now() == INITIAL && Valid()
    {
      this.cfg := cfg;
      reqs, metas, caddies, scheds, fifo, table := [], [], [], [], [], [];
    }

    // dsched_alloc_fn: an allocation request arrives.
    method AllocFn(infos: seq<Info>, hasCallback: bool)
      modifies this
      ensures Now() == DoArrive(old(Now()), infos, hasCallback)
    {
      reqs := reqs + [Req(Init, 1, -1, infos, hasCallback, NO_PARAMS, NotSupported, None, [])];
    }

    // request_init; slot is the one the request table hands out if the request is accepted.
    method RequestInit(r: nat, slot: nat)
      requires WellIndexed(Now()) && Enabled(cfg, Now(), Label.RequestInit(r, slot))
      modifies this
      ensures Now() == DoRequestInit(old(Now()), r, slot)
    {
      var q := reqs[r];
      var o := Process(q.infos);
      DescriptionIsUnique(q.infos, o, Parse(q.infos));
      q := q.(params := o.params);
      if o.error == 0 {
        q := q.(index := slot);
        table := PutSlot(table, slot, r);
        q := q.(ev := ReqEvent.MetaSchedule);
        if o.notWaiting && q.hasCallback {
          q := q.(replies := q.replies + [Reply(Acknowledge, Success)]);
        }
      } else {
        if q.hasCallback {
          q := q.(replies := q.replies + [Reply(Reject, Failed(o.error))]);
        }
        q := q.(ev := ReqEvent.Idle, refs := q.refs - 1);
      }
      reqs := reqs[r := q];
    }

    // dsched_meta_base_schedule; accepts[i] says whether meta module i takes the request.
    method MetaBaseSchedule(r: nat, accepts: seq<bool>)
      requires WellIndexed(Now()) && Enabled(cfg, Now(), Label.MetaBaseSchedule(r, accepts))
      modifies this
      ensures Now() == DoMetaBaseSchedule(cfg, old(Now()), r, accepts)
    {
      ghost var before := Now();
      var m := |metas|;
      reqs := reqs[r := reqs[r].(ev := ReqEvent.Idle, refs := reqs[r].refs + 1)];
      var mt := Meta(true, |cfg.metas|, 0, r, 0);
      var assign := true;
      for i := 0 to |cfg.metas|
        invariant reqs == before.reqs[r := before.reqs[r].(ev := ReqEvent.Idle, refs := before.reqs[r].refs + 1)]
        invariant metas == before.metas && scheds == before.scheds && fifo == before.fifo && table == before.table
        invariant caddies == before.caddies + FanMetas(cfg.metas, accepts, m, i).created
        invariant mt == Meta(true, |cfg.metas|, FanMetas(cfg.metas, accepts, m, i).refused, r,
                             |FanMetas(cfg.metas, accepts, m, i).created|)
        invariant assign <==> FanMetas(cfg.metas, accepts, m, i).created == []
      {
        if cfg.metas[i] {
          if accepts[i] {
            caddies := caddies + [Caddy(PriSched, true, m, assign, CaddyEvent.Idle, None, [])];
            mt := mt.(accepted := mt.accepted + 1);
            assign := false;
          } else {
            mt := mt.(nresponded := mt.nresponded + 1);
          }
        }
      }
      metas := metas + [mt];
      if mt.nactive == mt.nresponded {
        reqs := reqs[r := reqs[r].(status := NotAvailable)];
        caddies := caddies + [Caddy(MetaBase, true, m, false, CaddyEvent.Idle, None, [])];
      }
    }

    // sched in meta_pri.c
    method PriSchedule(c: nat)
      requires WellIndexed(Now()) && Enabled(cfg, Now(), Label.PriSchedule(c))
      modifies this
      ensures Now() == DoPriSchedule(old(Now()), c)
    {
      caddies := caddies[c := caddies[c].(evcbfunc := PriChoose)];
      caddies := caddies[c := caddies[c].(ev := SchedBase)];
    }

    // dsched_sched_base_schedule; accepts[i] says whether scheduler i takes the request.
    method SchedBaseSchedule(c: nat, accepts: seq<bool>)
      requires WellIndexed(Now()) && Enabled(cfg, Now(), Label.SchedBaseSchedule(c, accepts))
      modifies this
      ensures Now() == DoSchedBaseSchedule(cfg, old(Now()), c, accepts)
    {
      ghost var before := Now();
      var r := metas[caddies[c].mt].req;
      var trk := Tracker(|cfg.scheds|, 0);
      var order := 1;
      for i := 0 to |cfg.scheds|
        invariant reqs == before.reqs && metas == before.metas && caddies == before.caddies
        invariant fifo == before.fifo && table == before.table
        invariant scheds == before.scheds + FanScheds(cfg.scheds, accepts, c, r, i).created
        invariant order == FanScheds(cfg.scheds, accepts, c, r, i).order
        invariant trk == Tracker(|cfg.scheds|, FanScheds(cfg.scheds, accepts, c, r, i).refused)
      {
        if !cfg.scheds[i].Absent? {
          if accepts[i] {
            scheds := scheds + [SchedCaddy(Run, order, r, c, None, cfg.scheds[i].Fifo?, i)];
          } else {
            trk := trk.(nresponded := trk.nresponded + 1);
          }
          order := order + 1;
        }
      }
      var cd := caddies[c].(trk := Some(trk), ev := CaddyEvent.Idle);
      if trk.nresponded == trk.nactive {
        reqs := reqs[r := reqs[r].(status := NotAvailable)];
        cd := cd.(ev := cd.evcbfunc);
      }
      caddies := caddies[c := cd];
    }

    // sched in sched_fifo.c
    method FifoSchedule(s: nat, pool: FifoNodes.Pool, avail: int, ghost answer: Option<seq<nat>>)
      requires WellIndexed(Now()) && Enabled(cfg, Now(), Label.RunScheduler(s, pool, avail, answer)) && scheds[s].fifo
      modifies this
      ensures Now() == DoRunScheduler(old(Now()), s, pool, avail, answer)
    {
      var sc := scheds[s];
      reqs := reqs[sc.req := reqs[sc.req].(refs := reqs[sc.req].refs + 1)];
      fifo := fifo + [sc.req];
      var head := fifo[0];
      if reqs[head].params.numNodes < avail {
        var nodes := FifoNodes.SelectNodes(pool, reqs[head].params.numNodes);
        sc := sc.(alloc := Some(Alloc(sc.order, nodes)), req := head);
      }
      scheds := scheds[s := sc.(ev := Respond)];
    }

    // dsched_sched_base_cbfunc
    method SchedBaseCallback(s: nat)
      requires WellIndexed(Now()) && Enabled(cfg, Now(), Label.SchedBaseCallback(s))
      modifies this
      ensures Now() == DoSchedBaseCallback(old(Now()), s)
    {
      var sc := scheds[s];
      var cd := caddies[sc.trk];
      cd := cd.(trk := Some(cd.trk.value.(nresponded := cd.trk.value.nresponded + 1)));
      if sc.alloc.Some? {
        cd := cd.(allocations := cd.allocations + [sc.alloc.value]);
      }
      if cd.trk.value.nresponded == cd.trk.value.nactive {
        cd := cd.(ev := cd.evcbfunc);
      }
      caddies := caddies[sc.trk := cd];
      scheds := scheds[s := sc.(ev := SchedEvent.Idle)];
    }

    // sched_cbfunc in meta_pri.c
    method PriCallback(c: nat)
      requires WellIndexed(Now()) && Enabled(cfg, Now(), Label.PriCallback(c))
      modifies this
      ensures Now() == DoPriCallback(old(Now()), c)
    {
      var cd := caddies[c];
      if cd.flag {
        var best: Option<Alloc> := None;
        for n := 0 to |cd.allocations|
          invariant best == Best(cd.allocations[..n])
        {
          assert cd.allocations[..n + 1][..n] == cd.allocations[..n];
          if best.None? || cd.allocations[n].pri < best.value.pri {
            best := Some(cd.allocations[n]);
          }
        }
        assert cd.allocations[..|cd.allocations|] == cd.allocations;
        if best.Some? {
          var r := metas[cd.mt].req;
          reqs := reqs[r := reqs[r].(allocation := best, status := Success)];
        }
      }
      caddies := caddies[c := cd.(ev := MetaBase)];
    }

    // dsched_meta_base_cbfunc
    method MetaBaseCallback(c: nat)
      requires WellIndexed(Now()) && Enabled(cfg, Now(), Label.MetaBaseCallback(c))
      modifies this
      ensures Now() == DoMetaBaseCallback(old(Now()), c)
    {
      var m := caddies[c].mt;
      var mt := metas[m].(nresponded := metas[m].nresponded + 1);
      if mt.nresponded == mt.nactive {
        var q := reqs[mt.req];
        if q.hasCallback {
          q := q.(replies := q.replies + [Reply(Complete, q.status)]);
        }
        if 0 <= q.index < |table| {
          table := table[q.index := None];
        }
        q := q.(refs := q.refs - 1);
        // releasing the meta object drops the reference it holds
        mt := mt.(live := false);
        q := q.(refs := q.refs - 1);
        reqs := reqs[mt.req := q];
      }
      metas := metas[m := mt];
      caddies := caddies[c := caddies[c].(ev := CaddyEvent.Idle, live := false)];
    }

    // Another scheduler working out its answer.
    method OtherSchedule(s: nat, pool: FifoNodes.Pool, avail: int, answer: Option<seq<nat>>)
      requires WellIndexed(Now()) && Enabled(cfg, Now(), Label.RunScheduler(s, pool, avail, answer)) && !scheds[s].fifo
      modifies this
      ensures Now() == DoRunScheduler(old(Now()), s, pool, avail, answer)
    {
      var sc := scheds[s].(ev := Respond);
      if answer.Some? {
        sc := sc.(alloc := Some(Alloc(sc.order, answer.value)));
      }
      scheds := scheds[s := sc];
    }

    // The event loop serving one queued callback, or the daemon receiving a request.
    method Serve(l: Label)
      requires Valid() && Enabled(cfg, Now(), l)
      modifies this
      ensures Valid() && Now() == Apply(cfg, old(Now()), l)
    {
      StepKeepsInv(cfg, Now(), l);
      match l
      case Arrive(infos, hasCallback) => AllocFn(infos, hasCallback);
      case RequestInit(r, slot) => RequestInit(r, slot);
      case MetaBaseSchedule(r, accepts) => MetaBaseSchedule(r, accepts);
      case PriSchedule(c) => PriSchedule(c);
      case SchedBaseSchedule(c, accepts) => SchedBaseSchedule(c, accepts);
      case RunScheduler(s, pool, avail, answer) =>
        if scheds[s].fifo {
          FifoSchedule(s, pool, avail, answer);
        } else {
          OtherSchedule(s, pool, avail, answer);
        }
      case SchedBaseCallback(s) => SchedBaseCallback(s);
      case PriCallback(c) => PriCallback(c);
      case MetaBaseCallback(c) => MetaBaseCallback(c);
    }
  }
}
