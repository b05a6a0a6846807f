// Selection of the active modules of a framework: each component that can be queried and
// initialised is inserted into a list kept in descending priority.
module Selection {
  import opened Round
  import opened RoundInvariant
  import opened RoundTheorems
  import opened RoundOutcome

  // A discovered component: whether it has a query function, whether the query returns a module,
  // and whether that module has an init function and how it goes.
  datatype Component = Component(hasQuery: bool, queryOk: bool, hasModule: bool,
                                 hasInit: bool, initOk: bool, priority: int)

  // An entry of the list of actives: the component's place in discovery order, and its priority.
  datatype Active = Active(id: nat, pri: int)

  predicate Selectable(c: Component) {
    c.hasQuery && c.queryOk && c.hasModule && (!c.hasInit || c.initOk)
  }

  // Descending priority, ties in discovery order.
  predicate Before(a: Active, b: Active) {
    a.pri > b.pri || (a.pri == b.pri && a.id < b.id)
  }

  ghost predicate Ordered(s: seq<Active>) {
    forall i, j :: 0 <= i < j < |s| ==> Before(s[i], s[j])
  }

  // s holds exactly the selectable components among cs.
  ghost predicate Holds(s: seq<Active>, cs: seq<Component>) {
    && (forall i :: 0 <= i < |s| ==>
          s[i].id < |cs| && Selectable(cs[s[i].id]) && s[i].pri == cs[s[i].id].priority)
    && (forall k :: 0 <= k < |cs| && Selectable(cs[k]) ==> Active(k, cs[k].priority) in s)
  }

  ghost predicate IsSelection(s: seq<Active>, cs: seq<Component>) {
    Ordered(s) && Holds(s, cs)
  }

  lemma {:induction false} InsertKeepsSelection(s: seq<Active>, p: nat, cs: seq<Component>, c: Component)
    requires IsSelection(s, cs) && Selectable(c) && p <= |s|
    requires forall i :: 0 <= i < p ==> s[i].pri >= c.priority
    requires p < |s| ==> c.priority > s[p].pri
    ensures IsSelection(s[..p] + [Active(|cs|, c.priority)] + s[p..], cs + [c])
  {
    var a := Active(|cs|, c.priority);
    var t := s[..p] + [a] + s[p..];
    forall i | p <= i < |s|
      ensures Before(a, s[i])
    {
      if i > p {
        assert Before(s[p], s[i]);
      }
    }
    forall k | 0 <= k < |cs + [c]| && Selectable((cs + [c])[k])
      ensures Active(k, (cs + [c])[k].priority) in t
    {
      if k < |cs| {
        var x := Active(k, cs[k].priority);
        assert s == s[..p] + s[p..];
        assert x in s[..p] || x in s[p..];
      } else {
        assert t[p] == a;
      }
    }
  }

  // A framework's globals: the list of actives and whether selection has been done.
  class Framework {
    var actives: seq<Active>
    var selected: bool

    constructor ()
      ensures actives == [] && !selected
    {
      actives, selected := [], false;
    }

    method Select(cs: seq<Component>)
      requires !selected ==> actives == []
      modifies this
      ensures selected
      ensures !old(selected) ==>
        && IsSelection(actives, cs)
        && (forall k :: 0 <= k < |cs| ==>
              (Active(k, cs[k].priority) in actives <==>
                 cs[k].hasQuery && cs[k].queryOk && cs[k].hasModule && (!cs[k].hasInit || cs[k].initOk)))
        && (forall i, j :: 0 <= i < j < |actives| ==>
              actives[i].pri > actives[j].pri || (actives[i].pri == actives[j].pri && actives[i].id < actives[j].id))
      ensures old(selected) ==> actives == old(actives)
    {
      if selected {
        return;
      }
      selected := true;
      for k := 0 to |cs|
        invariant selected && IsSelection(actives, cs[..k])
      {
        assert cs[..k + 1] == cs[..k] + [cs[k]];
        var c := cs[k];
        if !c.hasQuery {
          continue;
        }
        if !c.queryOk || !c.hasModule {
          continue;
        }
        if c.hasInit && !c.initOk {
          continue;
        }
        var newmodule := Active(k, c.priority);
        var inserted := false;
        var n := 0;
        ghost var before := actives;
        while n < |actives|
          invariant 0 <= n <= |actives| && actives == before && !inserted
          invariant forall i :: 0 <= i < n ==> actives[i].pri >= c.priority
        {
          if c.priority > actives[n].pri {
            InsertKeepsSelection(actives, n, cs[..k], c);
            actives := actives[..n] + [newmodule] + actives[n..];
            inserted := true;
            break;
          }
          n := n + 1;
        }
        if !inserted {
          InsertKeepsSelection(actives, |actives|, cs[..k], c);
          assert actives[..|actives|] == actives && actives[|actives|..] == [];
          actives := actives + [newmodule];
        }
      }
      assert cs[..|cs|] == cs;
    }
  }

  // The list is determined: there is only one order of the selectable components that is by
  // descending priority with ties in discovery order. Both frameworks select it.
  lemma {:induction false} SelectionIsUnique(s: seq<Active>, t: seq<Active>, cs: seq<Component>)
    requires IsSelection(s, cs) && IsSelection(t, cs)
    ensures s == t
  {
    assert forall x :: x in s <==> x in t by {
      forall x | x in s
        ensures x in t
      {
        assert x == Active(x.id, cs[x.id].priority);
      }
      forall x | x in t
        ensures x in s
      {
        assert x == Active(x.id, cs[x.id].priority);
      }
    }
    SameOrder(s, t);
  }

  lemma HasAnElement(t: seq<Active>)
    ensures t == [] || exists x :: x in t
  {
    if t != [] {
      assert t[0] in t;
    }
  }

  // Two ordered lists of the same entries are equal.
  lemma {:induction false} SameOrder(s: seq<Active>, t: seq<Active>)
    requires Ordered(s) && Ordered(t) && forall x :: x in s <==> x in t
    ensures s == t
  {
    if s == [] {
      HasAnElement(t);
    } else {
      assert s[0] in t && t != [];
      assert t[0] in s;
      assert s[0] == t[0];
      forall x | x in s[1..]
        ensures x in t[1..]
      {
        assert x in s && x in t;
      }
      forall x | x in t[1..]
        ensures x in s[1..]
      {
        assert x in t && x in s;
      }
      SameOrder(s[1..], t[1..]);
      assert s == [s[0]] + s[1..] && t == [t[0]] + t[1..];
    }
  }

  // k is the answer of a scheduler whose priority no other scheduler that answered exceeds.
  ghost predicate TopAnswer(st: State, c: nat, actives: seq<Active>, k: nat, b: Alloc) {
    && k < |actives| && Answered(st, c, k, b)
    && forall j: nat, a: Alloc :: Answered(st, c, j, a) ==> j < |actives| && actives[k].pri >= actives[j].pri
  }

  lemma FirstAnswerIsTop(cfg: Config, st: State, c: nat, actives: seq<Active>)
    requires Inv(cfg, st) && c < |st.caddies| && Best(st.caddies[c].allocations).Some?
    requires Ordered(actives) && |actives| == |cfg.scheds|
    ensures exists k: nat :: TopAnswer(st, c, actives, k, Best(st.caddies[c].allocations).value)
  {
    BestIsFirstAnswer(cfg, st, c);
    var b := Best(st.caddies[c].allocations).value;
    var k: nat :| Answered(st, c, k, b) && forall j: nat, a :: Answered(st, c, j, a) ==> k <= j;
    forall j: nat, a: Alloc | Answered(st, c, j, a)
      ensures j < |actives| && actives[k].pri >= actives[j].pri
    {
      if k < j {
        assert Before(actives[k], actives[j]);
      }
    }
    assert TopAnswer(st, c, actives, k, b);
  }

  // With the schedulers in the order that selection gives them, the allocation of a completed
  // request comes from a scheduler of the highest priority among those that produced one.
  lemma HighestPriorityWins(cfg: Config, ls: seq<Label>, r: nat, cs: seq<Component>, actives: seq<Active>)
    requires IsSelection(actives, cs) && |actives| == |cfg.scheds|
    requires Exec(cfg, ls).Some? && r < |Exec(cfg, ls).value.reqs|
    requires Completed(Exec(cfg, ls).value.reqs, Exec(cfg, ls).value.metas, r)
    requires Exec(cfg, ls).value.reqs[r].allocation.Some?
    ensures var st := Exec(cfg, ls).value;
      exists c: nat, k: nat :: c < |st.caddies| && Chosen(st.caddies[c]) && st.caddies[c].mt < |st.metas|
        && st.metas[st.caddies[c].mt].req == r && TopAnswer(st, c, actives, k, st.reqs[r].allocation.value)
  {
    ReachableInv(cfg, ls);
    var st := Exec(cfg, ls).value;
    var c := CompletedHasChooser(cfg, st, r);
    FirstAnswerIsTop(cfg, st, c, actives);
  }
}
