// The registry of progress threads of dsched_progress_threads.c: a list of trackers, each with an
// event base and a thread that runs it.
module ProgressThreads {
  import opened Search
  import opened Sums

  // Event bases are numbered in the order of their creation.
  type Base = nat

  datatype Entry = Entry(name: string, refcount: nat, base: Base, active: bool)

  // The tracking list, the event bases that are allocated, and those that a thread is running.
  datatype State = State(inited: bool, tracking: seq<Entry>, live: set<Base>, running: set<Base>, next: Base)

  // What starting a thread comes to: it runs; it was not created; it runs without the binding that
  // was required; or it was not created and setting its binding, which is not required, hides that.
  datatype Start = Started | NotStarted | NotBound | Hidden

  // What start_progress_engine reports, and whether a thread runs afterwards.
  predicate Reported(start: Start) {
    start.Started? || start.Hidden?
  }

  predicate Runs(start: Start) {
    start.Started? || start.NotBound?
  }

  datatype Op =
    | Init(name: Option<string>, memory: bool, start: Start)
    | Pause(name: Option<string>)
    | Resume(name: Option<string>, start: Start)
    | Finalize(name: Option<string>)

  datatype Result = Success | NotFound | Busy | Failed | Returned(base: Option<Base>)

  const SHARED := "DSCHED-wide async progress thread"

  const INITIAL := State(false, [], {}, {}, 0)

  // A NULL name stands for the shared thread, except for pausing.
  function Named(name: Option<string>): string {
    if name.Some? then name.value else SHARED
  }

  // The position of the first tracker with the name, or the length of the list.
  function Find(tracking: seq<Entry>, name: string): (i: nat)
    ensures i <= |tracking| && (i < |tracking| ==> tracking[i].name == name)
    ensures forall j :: 0 <= j < i ==> tracking[j].name != name
  {
    FirstWhere(tracking, (e: Entry) => e.name == name)
  }

  predicate Tracked(s: State, name: string) {
    Find(s.tracking, name) < |s.tracking|
  }

  function Tracker(s: State, name: string): Entry
    requires Tracked(s, name)
  {
    s.tracking[Find(s.tracking, name)]
  }

  // ---- the operations --------------------------------------------------------------------------

  // stop_progress_engine for the tracker at i
  function Stop(s: State, i: nat): State
    requires i < |s.tracking|
  {
    s.(tracking := s.tracking[i := s.tracking[i].(active := false)],
       running := s.running - {s.tracking[i].base})
  }

  function DoInit(s: State, op: Op): (State, Result)
    requires op.Init?
  {
    var i := Find(s.tracking, Named(op.name));
    if i < |s.tracking| then
      (s.(inited := true, tracking := s.tracking[i := s.tracking[i].(refcount := s.tracking[i].refcount + 1)]),
       Returned(Some(s.tracking[i].base)))
    else if !op.memory then (s.(inited := true), Returned(None))
    else
      var running := if Runs(op.start) then s.running + {s.next} else s.running;
      if Reported(op.start) then
        (State(true, s.tracking + [Entry(Named(op.name), 1, s.next, true)], s.live + {s.next}, running, s.next + 1),
         Returned(Some(s.next)))
      else (State(true, s.tracking, s.live, running, s.next + 1), Returned(None))
  }

  function DoFinalize(s: State, op: Op): (State, Result)
    requires op.Finalize?
  {
    var i := Find(s.tracking, Named(op.name));
    if i == |s.tracking| then (s, NotFound)
    else
      (s.(tracking := s.tracking[..i] + s.tracking[i + 1..],
          live := s.live - {s.tracking[i].base},
          running := if s.tracking[i].active then s.running - {s.tracking[i].base} else s.running),
       Success)
  }

  // The event bases of the trackers before n that are active, and the trackers with those paused.
  function ActiveBases(tracking: seq<Entry>, n: nat): set<Base>
    requires n <= |tracking|
  {
    set i | 0 <= i < n && tracking[i].active :: tracking[i].base
  }

  function Paused(tracking: seq<Entry>, n: nat): (r: seq<Entry>)
    requires n <= |tracking|
    ensures |r| == |tracking|
    ensures forall i :: 0 <= i < |r| ==> r[i] == if i < n then tracking[i].(active := false) else tracking[i]
  {
    seq(|tracking|, i requires 0 <= i < |tracking| => if i < n then tracking[i].(active := false) else tracking[i])
  }

  function DoPause(s: State, op: Op): (State, Result)
    requires op.Pause?
  {
    if !s.inited then (s, NotFound)
    else if op.name.None? then
      (s.(tracking := Paused(s.tracking, |s.tracking|),
          running := s.running - ActiveBases(s.tracking, |s.tracking|)),
       Success)
    else
      var i := Find(s.tracking, op.name.value);
      (if i < |s.tracking| && s.tracking[i].active then Stop(s, i) else s, Success)
  }

  function DoResume(s: State, op: Op): (State, Result)
    requires op.Resume?
  {
    var i := Find(s.tracking, Named(op.name));
    if i == |s.tracking| then (s, NotFound)
    else if s.tracking[i].active then (s, Busy)
    else
      (s.(tracking := s.tracking[i := s.tracking[i].(active := true)],
          running := if Runs(op.start) then s.running + {s.tracking[i].base} else s.running),
       if Reported(op.start) then Success else Failed)
  }

  function Step(s: State, op: Op): (State, Result) {
    match op
    case Init(_, _, _) => DoInit(s, op)
    case Pause(_) => DoPause(s, op)
    case Resume(_, _) => DoResume(s, op)
    case Finalize(_) => DoFinalize(s, op)
  }

  // ---- the code --------------------------------------------------------------------------------

  class Registry {
    var inited: bool
    var tracking: seq<Entry>
    // The event bases and threads that libevent and the operating system keep.
    var live: set<Base>
    var running: set<Base>
    var next: Base

    function Now(): State
      reads this
    {
      State(inited, tracking, live, running, next)
    }

    ghost predicate Valid()
      reads this
    {
      (!inited ==> tracking == []) && forall b :: b in live ==> b < next
    }

    constructor ()
      ensures Valid() && Now() == INITIAL
    {
      inited, tracking, live, running, next := false, [], {}, {}, 0;
    }

    // stop_progress_engine for the tracker at i
    method StopEngine(i: nat)
      requires i < |tracking| && tracking[i].active
      modifies this`tracking, this`running
      ensures Now() == Stop(old(Now()), i)
    {
      tracking := tracking[i := tracking[i].(active := false)];
      running := running - {tracking[i].base};
    }

    // start_progress_engine for a tracker that is idle
    method StartEngine(trk: Entry, start: Start) returns (started: Entry, ok: bool)
      requires !trk.active
      modifies this`running
      ensures started == trk.(active := true) && ok == Reported(start)
      ensures running == if Runs(start) then old(running) + {trk.base} else old(running)
    {
      started := trk.(active := true);
      if Runs(start) {
        running := running + {trk.base};
      }
      ok := Reported(start);
    }

    // dsched_progress_thread_init
    method ThreadInit(name: Option<string>, memory: bool, start: Start) returns (result: Result)
      requires Valid()
      modifies this
      ensures Valid() && (Now(), result) == Step(old(Now()), Init(name, memory, start))
    {
      inited := true;
      var n := Named(name);
      var i := 0;
      while i < |tracking|
        invariant 0 <= i <= Find(tracking, n)
        invariant Now() == old(Now()).(inited := true)
      {
        if n == tracking[i].name {
          tracking := tracking[i := tracking[i].(refcount := tracking[i].refcount + 1)];
          return Returned(Some(tracking[i].base));
        }
        i := i + 1;
      }
      if !memory {
        return Returned(None);
      }
      var trk := Entry(n, 1, next, false);
      live := live + {trk.base};
      next := next + 1;
      var started, ok := StartEngine(trk, start);
      if !ok {
        live := live - {trk.base};
        return Returned(None);
      }
      tracking := tracking + [started];
      return Returned(Some(trk.base));
    }

    // dsched_progress_thread_finalize
    method ThreadFinalize(name: Option<string>) returns (result: Result)
      requires Valid()
      modifies this
      ensures Valid() && (Now(), result) == Step(old(Now()), Finalize(name))
    {
      if !inited {
        return NotFound;
      }
      var n := Named(name);
      var i := 0;
      while i < |tracking|
        invariant 0 <= i <= Find(tracking, n) && Now() == old(Now())
      {
        if n == tracking[i].name {
          var trk := tracking[i];
          if trk.active {
            StopEngine(i);
          }
          tracking := tracking[..i] + tracking[i + 1..];
          live := live - {trk.base};
          return Success;
        }
        i := i + 1;
      }
      return NotFound;
    }

    // dsched_progress_thread_pause
    method ThreadPause(name: Option<string>) returns (result: Result)
      requires Valid()
      modifies this
      ensures Valid() && (Now(), result) == Step(old(Now()), Pause(name))
    {
      if !inited {
        return NotFound;
      }
      var i := 0;
      while i < |tracking|
        invariant 0 <= i <= |tracking| == |old(tracking)| && inited && live == old(live) && next == old(next)
        invariant name.Some? ==> i <= Find(tracking, name.value) && Now() == old(Now())
        invariant name.None? ==>
          tracking == Paused(old(tracking), i) && running == old(running) - ActiveBases(old(tracking), i)
      {
        if name.None? || name.value == tracking[i].name {
          if tracking[i].active {
            StopEngine(i);
          }
          if name.Some? {
            assert i == Find(old(tracking), name.value);
            break;
          }
        }
        i := i + 1;
      }
      return Success;
    }

    // dsched_progress_thread_resume
    method ThreadResume(name: Option<string>, start: Start) returns (result: Result)
      requires Valid()
      modifies this
      ensures Valid() && (Now(), result) == Step(old(Now()), Resume(name, start))
    {
      if !inited {
        return NotFound;
      }
      var n := Named(name);
      var i := 0;
      while i < |tracking|
        invariant 0 <= i <= Find(tracking, n) && Now() == old(Now())
      {
        if n == tracking[i].name {
          if tracking[i].active {
            return Busy;
          }
          var trk, ok := StartEngine(tracking[i], start);
          tracking := tracking[i := trk];
          return if ok then Success else Failed;
        }
        i := i + 1;
      }
      return NotFound;
    }
  }

  // ---- the invariant ---------------------------------------------------------------------------

  function Bases(tracking: seq<Entry>): set<Base> {
    set i | 0 <= i < |tracking| :: tracking[i].base
  }

  ghost predicate DistinctTrackers(tracking: seq<Entry>) {
    forall i, j :: 0 <= i < j < |tracking| ==>
      tracking[i].name != tracking[j].name && tracking[i].base != tracking[j].base
  }

  // What holds however threads start: names and event bases are distinct, and numbers are not reused.
  ghost predicate Tidy(s: State) {
    && (!s.inited ==> s.tracking == [])
    && DistinctTrackers(s.tracking)
    && (forall i :: 0 <= i < |s.tracking| ==> s.tracking[i].base < s.next)
  }

  // Besides, exactly the tracked event bases are allocated, and exactly those of active trackers have
  // a running thread.
  ghost predicate Inv(s: State) {
    && Tidy(s)
    && s.live == Bases(s.tracking)
    && s.running == ActiveBases(s.tracking, |s.tracking|)
  }

  // The ways in which starting a thread leaves the registry wrong: a thread that was not bound keeps
  // running on the event base that is freed; a resumed tracker counts as active although starting
  // failed; and a new or resumed one does although nothing was started, which goes unnoticed.
  predicate Faulty(s: State, op: Op) {
    || (op.Init? && op.memory && (op.start.NotBound? || op.start.Hidden?) && !Tracked(s, Named(op.name)))
    || (op.Resume? && !Runs(op.start) && Tracked(s, Named(op.name)) && !Tracker(s, Named(op.name)).active)
  }

  lemma ActiveAreTracked(tracking: seq<Entry>)
    ensures ActiveBases(tracking, |tracking|) <= Bases(tracking)
  {
    forall b | b in ActiveBases(tracking, |tracking|) ensures b in Bases(tracking) {
      var i :| 0 <= i < |tracking| && tracking[i].active && tracking[i].base == b;
    }
  }

  // Changing anything but the base of a tracker keeps the bases; changing whether it is active adds
  // or removes its base from the active ones.
  lemma UpdateBases(tracking: seq<Entry>, i: nat, e: Entry)
    requires i < |tracking| && DistinctTrackers(tracking)
    requires e.name == tracking[i].name && e.base == tracking[i].base
    ensures var t := tracking[i := e];
            && DistinctTrackers(t) && Bases(t) == Bases(tracking)
            && ActiveBases(t, |t|) == ActiveBases(tracking, |tracking|) - {e.base} + (if e.active then {e.base} else {})
  {
    var t := tracking[i := e];
    assert t[i] == e;
    assert forall j :: 0 <= j < |t| && j != i ==> t[j] == tracking[j] && t[j].base != e.base;
    forall b ensures b in Bases(t) <==> b in Bases(tracking) {
      if b in Bases(tracking) {
        var j :| 0 <= j < |tracking| && tracking[j].base == b;
        assert t[j].base == b;
      }
    }
    forall b ensures b in ActiveBases(t, |t|)
                <==> b in ActiveBases(tracking, |tracking|) - {e.base} + (if e.active then {e.base} else {}) {
      if b in ActiveBases(tracking, |tracking|) && b != e.base {
        var j :| 0 <= j < |tracking| && tracking[j].active && tracking[j].base == b;
        assert t[j].base == b && t[j].active;
      }
    }
  }

  lemma AppendBases(tracking: seq<Entry>, e: Entry)
    ensures var t := tracking + [e];
            && Bases(t) == Bases(tracking) + {e.base}
            && (e.active ==> ActiveBases(t, |t|) == ActiveBases(tracking, |tracking|) + {e.base})
  {
    var t := tracking + [e];
    assert t[|tracking|] == e;
    assert forall j :: 0 <= j < |tracking| ==> t[j] == tracking[j];
  }

  lemma RemoveBases(tracking: seq<Entry>, i: nat)
    requires i < |tracking| && DistinctTrackers(tracking)
    ensures var t := tracking[..i] + tracking[i + 1..];
            && DistinctTrackers(t) && Bases(t) == Bases(tracking) - {tracking[i].base}
            && ActiveBases(t, |t|) == ActiveBases(tracking, |tracking|) - {tracking[i].base}
  {
    var t := tracking[..i] + tracking[i + 1..];
    assert forall j :: 0 <= j < |t| ==> t[j] == tracking[if j < i then j else j + 1];
    forall j | 0 <= j < |tracking| && j != i
      ensures tracking[j].base in Bases(t) && (tracking[j].active ==> tracking[j].base in ActiveBases(t, |t|)) {
      assert t[if j < i then j else j - 1] == tracking[j];
    }
  }

  lemma PausedBases(tracking: seq<Entry>)
    requires DistinctTrackers(tracking)
    ensures var t := Paused(tracking, |tracking|);
            DistinctTrackers(t) && Bases(t) == Bases(tracking) && ActiveBases(t, |t|) == {}
  {
    var t := Paused(tracking, |tracking|);
    assert forall j :: 0 <= j < |t| ==> t[j].base == tracking[j].base && !t[j].active;
  }

  lemma InitInv(s: State, op: Op)
    requires Inv(s) && op.Init?
    ensures Inv(DoInit(s, op).0) <==> !Faulty(s, op)
  {
    var i := Find(s.tracking, Named(op.name));
    ActiveAreTracked(s.tracking);
    if i < |s.tracking| {
      UpdateBases(s.tracking, i, s.tracking[i].(refcount := s.tracking[i].refcount + 1));
    } else if op.memory {
      AppendBases(s.tracking, Entry(Named(op.name), 1, s.next, true));
      assert s.next !in s.running;
      assert s.next in DoInit(s, op).0.running <==> Runs(op.start);
    }
  }

  lemma FinalizeInv(s: State, op: Op)
    requires Inv(s) && op.Finalize?
    ensures Inv(DoFinalize(s, op).0)
  {
    var i := Find(s.tracking, Named(op.name));
    if i < |s.tracking| {
      RemoveBases(s.tracking, i);
      InactiveIsIdle(s, i);
    }
  }

  lemma InactiveIsIdle(s: State, i: nat)
    requires Inv(s) && i < |s.tracking|
    ensures s.tracking[i].base in s.running <==> s.tracking[i].active
  {
    if s.tracking[i].base in s.running {
      var j :| 0 <= j < |s.tracking| && s.tracking[j].active && s.tracking[j].base == s.tracking[i].base;
      assert i == j;
    }
  }

  lemma PauseInv(s: State, op: Op)
    requires Inv(s) && op.Pause?
    ensures Inv(DoPause(s, op).0)
  {
    if op.name.None? {
      PausedBases(s.tracking);
    } else {
      var i := Find(s.tracking, op.name.value);
      if i < |s.tracking| {
        UpdateBases(s.tracking, i, s.tracking[i].(active := false));
      }
    }
  }

  lemma ResumeInv(s: State, op: Op)
    requires Inv(s) && op.Resume?
    ensures Inv(DoResume(s, op).0) <==> !Faulty(s, op)
  {
    var i := Find(s.tracking, Named(op.name));
    if i < |s.tracking| {
      UpdateBases(s.tracking, i, s.tracking[i].(active := true));
      InactiveIsIdle(s, i);
    }
  }

  // Every operation keeps the invariant, except exactly the faulty starts.
  lemma StepKeepsInv(s: State, op: Op)
    requires Inv(s)
    ensures Inv(Step(s, op).0) <==> !Faulty(s, op)
  {
    match op
    case Init(_, _, _) => InitInv(s, op);
    case Pause(_) => PauseInv(s, op);
    case Resume(_, _) => ResumeInv(s, op);
    case Finalize(_) => FinalizeInv(s, op);
  }

  lemma InitKeepsTidy(s: State, op: Op)
    requires Tidy(s) && op.Init?
    ensures Tidy(DoInit(s, op).0)
  {
    var i := Find(s.tracking, Named(op.name));
    if i < |s.tracking| {
      UpdateBases(s.tracking, i, s.tracking[i].(refcount := s.tracking[i].refcount + 1));
    }
  }

  lemma PauseKeepsTidy(s: State, op: Op)
    requires Tidy(s) && op.Pause?
    ensures Tidy(DoPause(s, op).0)
  {
    if op.name.Some? {
      var i := Find(s.tracking, op.name.value);
      if i < |s.tracking| {
        UpdateBases(s.tracking, i, s.tracking[i].(active := false));
      }
    }
  }

  lemma ResumeKeepsTidy(s: State, op: Op)
    requires Tidy(s) && op.Resume?
    ensures Tidy(DoResume(s, op).0)
  {
    var i := Find(s.tracking, Named(op.name));
    if i < |s.tracking| {
      UpdateBases(s.tracking, i, s.tracking[i].(active := true));
    }
  }

  lemma FinalizeKeepsTidy(s: State, op: Op)
    requires Tidy(s) && op.Finalize?
    ensures Tidy(DoFinalize(s, op).0)
  {
    var i := Find(s.tracking, Named(op.name));
    if i < |s.tracking| {
      RemoveBases(s.tracking, i);
    }
  }

  lemma StepKeepsTidy(s: State, op: Op)
    requires Tidy(s)
    ensures Tidy(Step(s, op).0)
  {
    match op
    case Init(_, _, _) => InitKeepsTidy(s, op);
    case Pause(_) => PauseKeepsTidy(s, op);
    case Resume(_, _) => ResumeKeepsTidy(s, op);
    case Finalize(_) => FinalizeKeepsTidy(s, op);
  }

  // ---- runs ------------------------------------------------------------------------------------

  function Run(ops: seq<Op>): State {
    if ops == [] then INITIAL else Step(Run(ops[..|ops| - 1]), ops[|ops| - 1]).0
  }

  lemma {:induction false} RunIsTidy(ops: seq<Op>)
    ensures Tidy(Run(ops))
  {
    if ops != [] {
      RunIsTidy(ops[..|ops| - 1]);
      StepKeepsTidy(Run(ops[..|ops| - 1]), ops[|ops| - 1]);
    }
  }

  // The invariant holds after every step of a run.
  ghost predicate AlwaysInv(ops: seq<Op>) {
    Inv(Run(ops)) && (ops != [] ==> AlwaysInv(ops[..|ops| - 1]))
  }

  // No step of a run is a faulty start.
  predicate NeverFaulty(ops: seq<Op>) {
    ops != [] ==> NeverFaulty(ops[..|ops| - 1]) && !Faulty(Run(ops[..|ops| - 1]), ops[|ops| - 1])
  }

  // The invariant holds all through a run exactly when no start in it is faulty.
  lemma {:induction false} RunKeepsInv(ops: seq<Op>)
    ensures AlwaysInv(ops) <==> NeverFaulty(ops)
  {
    if ops != [] {
      var before := ops[..|ops| - 1];
      RunKeepsInv(before);
      if AlwaysInv(before) {
        StepKeepsInv(Run(before), ops[|ops| - 1]);
      }
    }
  }

  // How often a name was initialised since it was last finalised. Initialising a name that is not
  // tracked counts if it succeeds.
  function InitsSince(ops: seq<Op>, name: string): nat {
    if ops == [] then 0
    else
      var op, before := ops[|ops| - 1], InitsSince(ops[..|ops| - 1], name);
      if op.Init? && Named(op.name) == name then if Gains(op, before) then before + 1 else before
      else if op.Finalize? && Named(op.name) == name then 0
      else before
  }

  // Initialising a name that has some uses, or for the first time, gains one.
  predicate Gains(op: Op, uses: nat)
    requires op.Init?
  {
    uses > 0 || (op.memory && Reported(op.start))
  }

  // The tracker of a name, if there is one.
  function Lookup(tracking: seq<Entry>, name: string): Option<Entry> {
    var i := Find(tracking, name);
    if i < |tracking| then Some(tracking[i]) else None
  }

  lemma LookupIs(tracking: seq<Entry>, i: nat)
    requires i < |tracking| && DistinctTrackers(tracking)
    ensures Lookup(tracking, tracking[i].name) == Some(tracking[i])
  {
  }

  // What an operation does to the tracker of a name, whatever the other trackers are.
  function EntryAfter(was: Option<Entry>, op: Op, name: string, next: Base): Option<Entry> {
    match op
    case Init(n, memory, start) =>
      if Named(n) != name then was
      else if was.Some? then Some(was.value.(refcount := was.value.refcount + 1))
      else if memory && Reported(start) then Some(Entry(name, 1, next, true))
      else None
    case Finalize(n) => if Named(n) != name then was else None
    case Pause(n) =>
      if was.Some? && (n.None? || n.value == name) then Some(was.value.(active := false)) else was
    case Resume(n, _) =>
      if was.Some? && Named(n) == name then Some(was.value.(active := true)) else was
  }

  lemma LookupUpdated(tracking: seq<Entry>, i: nat, e: Entry, name: string)
    requires i < |tracking| && DistinctTrackers(tracking)
    requires e.name == tracking[i].name && e.base == tracking[i].base
    ensures Lookup(tracking[i := e], name) == if name == e.name then Some(e) else Lookup(tracking, name)
  {
    var t := tracking[i := e];
    UpdateBases(tracking, i, e);
    assert t[i] == e && forall j :: 0 <= j < |t| ==> t[j].name == tracking[j].name;
    LookupIs(t, i);
    var f := Find(tracking, name);
    if f < |tracking| && name != e.name {
      assert t[f] == tracking[f];
      LookupIs(t, f);
    }
  }

  lemma LookupAppended(tracking: seq<Entry>, e: Entry, name: string)
    requires Lookup(tracking, e.name) == None
    ensures Lookup(tracking + [e], name) == if name == e.name then Some(e) else Lookup(tracking, name)
  {
    var t := tracking + [e];
    assert t[|tracking|] == e && forall j :: 0 <= j < |tracking| ==> t[j] == tracking[j];
  }

  lemma LookupRemoved(tracking: seq<Entry>, n: string, name: string)
    requires Find(tracking, n) < |tracking| && DistinctTrackers(tracking)
    ensures var i := Find(tracking, n);
            Lookup(tracking[..i] + tracking[i + 1..], name) == if n != name then Lookup(tracking, name) else None
  {
    var i := Find(tracking, n);
    var t := tracking[..i] + tracking[i + 1..];
    RemoveBases(tracking, i);
    assert forall j :: 0 <= j < |t| ==> t[j] == tracking[if j < i then j else j + 1];
    var f := Find(tracking, name);
    if f < |tracking| && f != i {
      assert t[if f < i then f else f - 1] == tracking[f];
      LookupIs(t, if f < i then f else f - 1);
    }
  }

  lemma LookupPaused(tracking: seq<Entry>, name: string)
    requires DistinctTrackers(tracking)
    ensures Lookup(Paused(tracking, |tracking|), name)
         == match Lookup(tracking, name) case None => None case Some(e) => Some(e.(active := false))
  {
    var t := Paused(tracking, |tracking|);
    PausedBases(tracking);
    assert forall j :: 0 <= j < |t| ==> t[j].name == tracking[j].name;
    var f := Find(tracking, name);
    if f < |tracking| {
      LookupIs(t, f);
    }
  }

  lemma InitOnEntry(s: State, op: Op, name: string)
    requires Tidy(s) && op.Init?
    ensures Lookup(DoInit(s, op).0.tracking, name) == EntryAfter(Lookup(s.tracking, name), op, name, s.next)
  {
    var i := Find(s.tracking, Named(op.name));
    if i < |s.tracking| {
      LookupUpdated(s.tracking, i, s.tracking[i].(refcount := s.tracking[i].refcount + 1), name);
    } else {
      LookupAppended(s.tracking, Entry(Named(op.name), 1, s.next, true), name);
    }
  }

  lemma PauseOnEntry(s: State, op: Op, name: string)
    requires Tidy(s) && op.Pause?
    ensures Lookup(DoPause(s, op).0.tracking, name) == EntryAfter(Lookup(s.tracking, name), op, name, s.next)
  {
    if op.name.None? {
      LookupPaused(s.tracking, name);
    } else {
      var i := Find(s.tracking, op.name.value);
      if i < |s.tracking| {
        LookupUpdated(s.tracking, i, s.tracking[i].(active := false), name);
      }
    }
  }

  lemma ResumeOnEntry(s: State, op: Op, name: string)
    requires Tidy(s) && op.Resume?
    ensures Lookup(DoResume(s, op).0.tracking, name) == EntryAfter(Lookup(s.tracking, name), op, name, s.next)
  {
    var i := Find(s.tracking, Named(op.name));
    if i < |s.tracking| {
      LookupUpdated(s.tracking, i, s.tracking[i].(active := true), name);
    }
  }

  lemma FinalizeOnEntry(s: State, op: Op, name: string)
    requires Tidy(s) && op.Finalize?
    ensures Lookup(DoFinalize(s, op).0.tracking, name) == EntryAfter(Lookup(s.tracking, name), op, name, s.next)
  {
    var n := Named(op.name);
    if Find(s.tracking, n) < |s.tracking| {
      LookupRemoved(s.tracking, n, name);
    } else {
      assert Lookup(s.tracking, n) == None && DoFinalize(s, op).0 == s;
    }
  }

  // Each name sees only the operations on it, and the pausing of all threads.
  lemma StepOnEntry(s: State, op: Op, name: string)
    requires Tidy(s)
    ensures Lookup(Step(s, op).0.tracking, name) == EntryAfter(Lookup(s.tracking, name), op, name, s.next)
  {
    match op
    case Init(_, _, _) => InitOnEntry(s, op, name);
    case Pause(_) => PauseOnEntry(s, op, name);
    case Resume(_, _) => ResumeOnEntry(s, op, name);
    case Finalize(_) => FinalizeOnEntry(s, op, name);
  }

  // One operation keeps a tracker's reference count equal to a count of uses.
  lemma CountStep(was: Option<Entry>, op: Op, name: string, next: Base, uses: nat)
    requires (was.Some? <==> uses > 0) && (was.Some? ==> was.value.refcount == uses)
    ensures var now := EntryAfter(was, op, name, next);
            var uses' := if op.Init? && Named(op.name) == name then if Gains(op, uses) then uses + 1 else uses
                         else if op.Finalize? && Named(op.name) == name then 0
                         else uses;
            (now.Some? <==> uses' > 0) && (now.Some? ==> now.value.refcount == uses')
  {
  }

  // A name is tracked exactly when it was initialised since it was last finalised, and its
  // reference count says how often.
  lemma {:induction false} CountsInits(ops: seq<Op>, name: string)
    ensures var e := Lookup(Run(ops).tracking, name);
            && (e.Some? <==> InitsSince(ops, name) > 0)
            && (e.Some? ==> e.value.refcount == InitsSince(ops, name))
  {
    if ops != [] {
      var before := ops[..|ops| - 1];
      CountsInits(before, name);
      RunIsTidy(before);
      CountStep(Lookup(Run(before).tracking, name), ops[|ops| - 1], name, Run(before).next, InitsSince(before, name));
      StepOnEntry(Run(before), ops[|ops| - 1], name);
    }
  }

  // What initialising and finalising a name return after any run: an initialisation fails only if the
  // name has no use and there is no memory or starting its thread is reported to fail; finalising
  // succeeds exactly when the name has a use.
  lemma {:induction false} ResultsInRun(ops: seq<Op>, name: string, memory: bool, start: Start)
    ensures Step(Run(ops), Init(Some(name), memory, start)).1 == Returned(None) <==>
      InitsSince(ops, name) == 0 && (!memory || start == NotStarted || start == NotBound)
    ensures InitsSince(ops, name) > 0 ==> Step(Run(ops), Init(Some(name), memory, start)).1.Returned?
    ensures Step(Run(ops), Finalize(Some(name))).1 == if InitsSince(ops, name) > 0 then Success else NotFound
    ensures InitsSince(ops, name) == 0 ==> Step(Run(ops), Finalize(Some(name))).0 == Run(ops)
  {
    CountsInits(ops, name);
  }

  function RunFrom(s: State, ops: seq<Op>): State
    decreases |ops|
  {
    if ops == [] then s else RunFrom(Step(s, ops[0]).0, ops[1..])
  }

  // Until a name is finalised, initialising it always returns the event base that it has, however
  // threads start, pause and resume.
  lemma {:induction false} SameBase(s: State, ops: seq<Op>, name: string, again: Op)
    requires Tidy(s) && Lookup(s.tracking, name).Some?
    requires forall i :: 0 <= i < |ops| ==> !(ops[i].Finalize? && Named(ops[i].name) == name)
    requires again.Init? && Named(again.name) == name
    ensures Step(RunFrom(s, ops), again).1 == Returned(Some(Lookup(s.tracking, name).value.base))
    decreases |ops|
  {
    if ops != [] {
      StepKeepsTidy(s, ops[0]);
      StepOnEntry(s, ops[0], name);
      assert forall i :: 0 <= i < |ops[1..]| ==> ops[1..][i] == ops[i + 1];
      SameBase(Step(s, ops[0]).0, ops[1..], name, again);
    }
  }

  // ---- what the header promises ----------------------------------------------------------------

  // The uses that are left of a name if finalising gives back one use at a time.
  function Uses(ops: seq<Op>, name: string): nat {
    if ops == [] then 0
    else
      var op, before := ops[|ops| - 1], Uses(ops[..|ops| - 1], name);
      if op.Init? && Named(op.name) == name then if Gains(op, before) then before + 1 else before
      else if op.Finalize? && Named(op.name) == name && before > 0 then before - 1
      else before
  }

  // A name is finalised while it has more than one use.
  predicate FinalizedInUse(ops: seq<Op>, name: string) {
    && ops != []
    && ops[|ops| - 1] == Finalize(ops[|ops| - 1].name)
    && Named(ops[|ops| - 1].name) == name
    && Uses(ops[..|ops| - 1], name) > 1
  }

  lemma {:induction false} UsesAreInits(ops: seq<Op>, name: string)
    requires forall n :: 0 <= n <= |ops| ==> !FinalizedInUse(ops[..n], name)
    ensures Uses(ops, name) == InitsSince(ops, name)
  {
    if ops != [] {
      var before := ops[..|ops| - 1];
      assert forall n :: 0 <= n <= |before| ==> before[..n] == ops[..n];
      UsesAreInits(before, name);
      assert ops[..|ops|] == ops;
    }
  }

  predicate KeepsCount(ops: seq<Op>, name: string) {
    forall n :: 0 <= n <= |ops| ==> (Lookup(Run(ops[..n]).tracking, name).Some? <==> Uses(ops[..n], name) > 0)
  }

  // Finalising is promised to be reference counted, but the count is not looked at. A run keeps the
  // promise for a name all the way exactly when it never finalises the name while more than one
  // use is left.
  lemma FinalizeIsNotCounted(ops: seq<Op>, name: string)
    ensures KeepsCount(ops, name) <==> forall n :: 0 <= n <= |ops| ==> !FinalizedInUse(ops[..n], name)
  {
    if forall n :: 0 <= n <= |ops| ==> !FinalizedInUse(ops[..n], name) {
      forall n | 0 <= n <= |ops|
        ensures Lookup(Run(ops[..n]).tracking, name).Some? <==> Uses(ops[..n], name) > 0
      {
        assert forall m :: 0 <= m <= n ==> ops[..n][..m] == ops[..m];
        UsesAreInits(ops[..n], name);
        CountsInits(ops[..n], name);
      }
    } else {
      var n :| 0 <= n <= |ops| && FinalizedInUse(ops[..n], name);
      CountsInits(ops[..n], name);
      assert InitsSince(ops[..n], name) == 0 && Uses(ops[..n], name) > 0;
    }
  }

  // The statuses that the header promises: an unknown name is not found, and otherwise pausing and
  // resuming succeed. Pausing keeps to that unless the name is unknown and something was initialised
  // before; resuming keeps to it unless the thread counts as running or starting it is reported to
  // have failed. A resume that reports success leaves the thread running unless the failure to start
  // it was hidden.
  lemma {:induction false} StatusesAsPromised(s: State, name: string, start: Start)
    requires Inv(s)
    ensures var promised := if Tracked(s, name) then Success else NotFound;
            && (Step(s, Pause(Some(name))).1 == promised <==> !s.inited || Tracked(s, name))
            && (Step(s, Resume(Some(name), start)).1 == promised
                <==> !Tracked(s, name) || (!Tracker(s, name).active && Reported(start)))
    ensures var (after, result) := Step(s, Resume(Some(name), start));
            result == Success ==>
              Tracked(s, name) && (Tracker(s, name).base in after.running <==> start != Hidden)
  {
    var i := Find(s.tracking, name);
    if i < |s.tracking| {
      InactiveIsIdle(s, i);
    }
  }

  // Resuming undoes pausing for a thread that runs.
  lemma PauseThenResume(s: State, name: string)
    requires Inv(s) && Tracked(s, name) && Tracker(s, name).active
    ensures Step(Step(s, Pause(Some(name))).0, Resume(Some(name), Started)).0 == s
  {
    var i := Find(s.tracking, name);
    var paused := Stop(s, i);
    LookupUpdated(s.tracking, i, paused.tracking[i], name);
    UpdateBases(s.tracking, i, paused.tracking[i]);
    LookupIs(paused.tracking, i);
    InactiveIsIdle(s, i);
    assert Find(paused.tracking, name) == i;
  }

  // A NULL name pauses every thread but resumes only the shared one.
  lemma {:induction false} PauseAllThenResume(s: State)
    requires Inv(s) && s.inited
    ensures var r := Step(Step(s, Pause(None)).0, Resume(None, Started)).0;
            r.running == if Tracked(s, SHARED) then {Tracker(s, SHARED).base} else {}
  {
    var paused := Step(s, Pause(None)).0;
    PauseInv(s, Pause(None));
    PausedBases(s.tracking);
    LookupPaused(s.tracking, SHARED);
  }

  // ---- inputs for which the promises fail ------------------------------------------------------

  // A thread that could not be bound keeps running although its event base is gone, and one whose
  // failure to start was hidden is tracked as active without running.
  lemma FaultyStarts()
    ensures var (unbound, result) := Step(INITIAL, Init(None, true, NotBound));
            result == Returned(None) && 0 in unbound.running && 0 !in unbound.live && !Inv(unbound)
    ensures var (hidden, result) := Step(INITIAL, Init(None, true, Hidden));
            && result == Returned(Some(0)) && !Inv(hidden)
            && Lookup(hidden.tracking, SHARED) == Some(Entry(SHARED, 1, 0, true)) && hidden.running == {}
  {
    StepKeepsInv(INITIAL, Init(None, true, NotBound));
    StepKeepsInv(INITIAL, Init(None, true, Hidden));
  }

  lemma StartedAndPaused(name: string)
    ensures Run([Init(Some(name), true, Started), Pause(Some(name))])
         == State(true, [Entry(name, 1, 0, false)], {0}, {}, 1)
  {
    var ops := [Init(Some(name), true, Started), Pause(Some(name))];
    assert ops[..1] == [ops[0]] && [ops[0]][..0] == [];
    assert Run([ops[0]]) == State(true, [Entry(name, 1, 0, true)], {0}, {0}, 1);
  }

  // A thread that cannot be created again after a pause counts as active although nothing runs, so it
  // can no longer be resumed.
  lemma FailedResume(name: string, start: Start)
    ensures var paused := Run([Init(Some(name), true, Started), Pause(Some(name))]);
            var (failed, result) := Step(paused, Resume(Some(name), NotStarted));
            && result == Failed && !Inv(failed)
            && Lookup(failed.tracking, name) == Some(Entry(name, 1, 0, true)) && failed.running == {}
            && Step(failed, Resume(Some(name), start)) == (failed, Busy)
  {
    StartedAndPaused(name);
    var paused := Run([Init(Some(name), true, Started), Pause(Some(name))]);
    var failed := Step(paused, Resume(Some(name), NotStarted)).0;
    assert failed.tracking == [Entry(name, 1, 0, true)];
    assert ActiveBases(failed.tracking, 1) == {0} by {
      assert failed.tracking[0].active;
    }
  }

  // Two uses, one given back: the thread is gone although a use is left.
  lemma FinalizedTooEarly(name: string)
    ensures var init := Init(Some(name), true, Started);
            var ops := [init, init, Finalize(Some(name))];
            Uses(ops, name) == 1 && Run(ops).tracking == [] && Run(ops).live == {} && Run(ops).running == {}
  {
    var init := Init(Some(name), true, Started);
    var ops := [init, init, Finalize(Some(name))];
    assert ops[..2] == [init, init] && [init, init][..1] == [init] && [init][..0] == [];
    assert Run([init]) == State(true, [Entry(name, 1, 0, true)], {0}, {0}, 1);
    assert Run([init, init]) == State(true, [Entry(name, 2, 0, true)], {0}, {0}, 1);
    assert Uses([init], name) == 1 && Uses([init, init], name) == 2;
  }

  // Pausing a name that was never initialised succeeds once another one was, and resuming with NULL
  // leaves a thread paused that pausing with NULL stopped.
  lemma PausedUnknownName()
    ensures var s := Run([Init(Some("a"), true, Started)]);
            && Step(s, Pause(Some("b"))).1 == Success && !Tracked(s, "b")
            && s.running == {0}
            && Step(Step(s, Pause(None)).0, Resume(None, Started)) == (Step(s, Pause(None)).0, NotFound)
            && Step(s, Pause(None)).0.running == {}
  {
    var ops := [Init(Some("a"), true, Started)];
    assert ops[..0] == [];
    var s := Run(ops);
    assert s == State(true, [Entry("a", 1, 0, true)], {0}, {0}, 1);
    assert SHARED[0] == 'D' && "a"[0] == 'a';
    var paused := Step(s, Pause(None)).0;
    assert s.tracking[0].base in ActiveBases(s.tracking, 1);
    assert paused.tracking == [Entry("a", 1, 0, false)];
  }
}
