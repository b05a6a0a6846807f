// Directive processing of an allocation request: the loop at the head of request_init.
module Directives {
  import opened Sums

  // A failing PMIx status; PMIX_SUCCESS is 0.
  type ErrorCode = c: int | c != 0 witness -1

  // The outcome of converting a directive's value to a number, done by PMIx.
  datatype Parsed<+T> = Good(value: T) | Bad(code: ErrorCode)

  datatype TextKey =
    | UserRefId | AllocRefId | NodeList | Exclude | CpuCounts | CpuList | TimeLimit
    | Queue | Lend | Image | Dependency | BeginTime

  datatype FlagKey = Preemptible | WaitAll | Share | NoShell

  datatype Info =
    | SessionId(id: Parsed<nat>)
    | NumNodes(nodes: Parsed<nat>)
    | NumCpus(cpus: Parsed<nat>)
    | MemSize(mem: Parsed<real>)
    | Text(key: TextKey, text: string)
    | Flag(flag: FlagKey, on: bool)
    | NotWaiting
    | Unrecognised

  datatype Params = Params(sessionId: nat, numNodes: int, numCpus: int, memSize: real,
                           texts: map<TextKey, string>, flags: map<FlagKey, bool>)

  const NO_SESSION: nat := 0xFFFF_FFFF

  // The fields as the request's constructor leaves them.
  const NO_PARAMS := Params(NO_SESSION, 0, 0, 0.0, map[], map[])

  datatype Outcome = Outcome(error: int, notWaiting: bool, params: Params)

  // The C cast of an unsigned 64-bit value to int.
  function ToInt32(u: nat): (i: int)
    ensures -0x8000_0000 <= i < 0x8000_0000
    ensures (i - u) % 0x1_0000_0000 == 0
    ensures u < 0x8000_0000 ==> i == u
  {
    var low := u % 0x1_0000_0000;
    if low < 0x8000_0000 then low else low - 0x1_0000_0000
  }

  function ErrorOf(i: Info): int {
    match i
    case SessionId(Bad(c)) => c
    case NumNodes(Bad(c)) => c
    case NumCpus(Bad(c)) => c
    case MemSize(Bad(c)) => c
    case _ => 0
  }

  // The code of the first directive whose value does not convert, 0 when there is none.
  function FirstError(infos: seq<Info>): int {
    if infos == [] then 0
    else if ErrorOf(infos[0]) != 0 then ErrorOf(infos[0])
    else FirstError(infos[1..])
  }

  // The value that the last directive picked out by sel carries.
  function LastOf<T>(infos: seq<Info>, sel: Info -> Option<T>, default: T): T {
    if infos == [] then default
    else
      var n := |infos| - 1;
      if sel(infos[n]).Some? then sel(infos[n]).value else LastOf(infos[..n], sel, default)
  }

  function SessionIn(): Info -> Option<nat> {
    (i: Info) => if i.SessionId? && i.id.Good? then Some(i.id.value) else None
  }

  function NodesIn(): Info -> Option<int> {
    (i: Info) => if i.NumNodes? && i.nodes.Good? then Some(ToInt32(i.nodes.value)) else None
  }

  function CpusIn(): Info -> Option<int> {
    (i: Info) => if i.NumCpus? && i.cpus.Good? then Some(ToInt32(i.cpus.value)) else None
  }

  function MemoryIn(): Info -> Option<real> {
    (i: Info) => if i.MemSize? && i.mem.Good? then Some(i.mem.value) else None
  }

  function TextIn(k: TextKey): Info -> Option<Option<string>> {
    (i: Info) => if i.Text? && i.key == k then Some(Some(i.text)) else None
  }

  function FlagIn(k: FlagKey): Info -> Option<Option<bool>> {
    (i: Info) => if i.Flag? && i.flag == k then Some(Some(i.on)) else None
  }

  function Lookup<K, V>(m: map<K, V>, k: K): Option<V> {
    if k in m then Some(m[k]) else None
  }

  // What processing a list of directives must give.
  ghost predicate Describes(infos: seq<Info>, o: Outcome) {
    && o.error == FirstError(infos)
    && (o.notWaiting <==> NotWaiting in infos)
    && o.params.sessionId == LastOf(infos, SessionIn(), NO_SESSION)
    && o.params.numNodes == LastOf(infos, NodesIn(), 0)
    && o.params.numCpus == LastOf(infos, CpusIn(), 0)
    && o.params.memSize == LastOf(infos, MemoryIn(), 0.0)
    && (forall k: TextKey :: Lookup(o.params.texts, k) == LastOf(infos, TextIn(k), None))
    && (forall k: FlagKey :: Lookup(o.params.flags, k) == LastOf(infos, FlagIn(k), None))
  }

  lemma {:induction false} FirstErrorAppend(infos: seq<Info>, i: Info)
    ensures FirstError(infos + [i]) == if FirstError(infos) != 0 then FirstError(infos) else ErrorOf(i)
  {
    if infos == [] {
      assert (infos + [i])[1..] == [];
    } else {
      assert (infos + [i])[1..] == infos[1..] + [i];
      FirstErrorAppend(infos[1..], i);
    }
  }

  // The directive carries a number that does not convert, for the reason c.
  predicate Fails(i: Info, c: ErrorCode) {
    i == SessionId(Bad(c)) || i == NumNodes(Bad(c)) || i == NumCpus(Bad(c)) || i == MemSize(Bad(c))
  }

  lemma ErrorOfFailing(i: Info)
    ensures ErrorOf(i) == 0 ==> forall c :: !Fails(i, c)
    ensures ErrorOf(i) != 0 ==> Fails(i, ErrorOf(i))
  {
  }

  // The error reported is 0 exactly when every number converts, and otherwise it is the code of a
  // failing directive that no failing directive precedes.
  lemma {:induction false} FirstErrorIsFirst(infos: seq<Info>)
    ensures FirstError(infos) == 0 <==> forall i, c :: 0 <= i < |infos| ==> !Fails(infos[i], c)
    ensures FirstError(infos) != 0 ==>
      exists k :: 0 <= k < |infos| && Fails(infos[k], FirstError(infos))
               && forall i, c :: 0 <= i < k ==> !Fails(infos[i], c)
  {
    if infos != [] {
      ErrorOfFailing(infos[0]);
      if ErrorOf(infos[0]) == 0 {
        FirstErrorIsFirst(infos[1..]);
        assert forall i :: 0 < i < |infos| ==> infos[i] == infos[1..][i - 1];
        if FirstError(infos) != 0 {
          var k :| 0 <= k < |infos[1..]| && Fails(infos[1..][k], FirstError(infos[1..]))
                   && forall i, c :: 0 <= i < k ==> !Fails(infos[1..][i], c);
          assert Fails(infos[k + 1], FirstError(infos));
        }
      } else {
        assert Fails(infos[0], FirstError(infos));
      }
    }
  }

  // A later directive overrides an earlier one, and directives that sel ignores do not matter.
  lemma {:induction false} LastOfIsLast<T>(infos: seq<Info>, sel: Info -> Option<T>, default: T, k: nat)
    requires k < |infos| && sel(infos[k]).Some?
    requires forall j :: k < j < |infos| ==> sel(infos[j]).None?
    ensures LastOf(infos, sel, default) == sel(infos[k]).value
  {
    var n := |infos| - 1;
    if k < n {
      LastOfIsLast(infos[..n], sel, default, k);
    }
  }

  lemma {:induction false} LastOfNone<T>(infos: seq<Info>, sel: Info -> Option<T>, default: T)
    requires forall j :: 0 <= j < |infos| ==> sel(infos[j]).None?
    ensures LastOf(infos, sel, default) == default
  {
    if infos != [] {
      LastOfNone(infos[..|infos| - 1], sel, default);
    }
  }

  // n is u as a signed 32-bit number.
  predicate IsInt32(n: int, u: nat) {
    -0x8000_0000 <= n < 0x8000_0000 && (n - u) % 0x1_0000_0000 == 0
  }

  // Each number recorded is the one of the last directive of its kind that converts.
  lemma RecordsNumbers(a: seq<Info>, i: Info, b: seq<Info>, o: Outcome)
    requires Describes(a + [i] + b, o)
    ensures forall v :: i == SessionId(Good(v)) && (forall j :: j in b ==> !(j.SessionId? && j.id.Good?)) ==>
      o.params.sessionId == v
    ensures forall v :: i == NumNodes(Good(v)) && (forall j :: j in b ==> !(j.NumNodes? && j.nodes.Good?)) ==>
      IsInt32(o.params.numNodes, v)
    ensures forall v :: i == NumCpus(Good(v)) && (forall j :: j in b ==> !(j.NumCpus? && j.cpus.Good?)) ==>
      IsInt32(o.params.numCpus, v)
    ensures forall v :: i == MemSize(Good(v)) && (forall j :: j in b ==> !(j.MemSize? && j.mem.Good?)) ==>
      o.params.memSize == v
  {
    var infos, k := a + [i] + b, |a|;
    assert infos[k] == i && forall j :: k < j < |infos| ==> infos[j] in b;
    match i
    case SessionId(Good(v)) =>
      if forall j :: j in b ==> !(j.SessionId? && j.id.Good?) {
        LastOfIsLast(infos, SessionIn(), NO_SESSION, k);
      }
    case NumNodes(Good(v)) =>
      if forall j :: j in b ==> !(j.NumNodes? && j.nodes.Good?) {
        LastOfIsLast(infos, NodesIn(), 0, k);
      }
    case NumCpus(Good(v)) =>
      if forall j :: j in b ==> !(j.NumCpus? && j.cpus.Good?) {
        LastOfIsLast(infos, CpusIn(), 0, k);
      }
    case MemSize(Good(v)) =>
      if forall j :: j in b ==> !(j.MemSize? && j.mem.Good?) {
        LastOfIsLast(infos, MemoryIn(), 0.0, k);
      }
    case _ =>
  }

  // So are texts and flags, each under its own key.
  lemma RecordsTexts(a: seq<Info>, i: Info, b: seq<Info>, o: Outcome)
    requires Describes(a + [i] + b, o)
    ensures i.Text? && (forall j :: j in b ==> !(j.Text? && j.key == i.key)) ==>
      i.key in o.params.texts && o.params.texts[i.key] == i.text
    ensures i.Flag? && (forall j :: j in b ==> !(j.Flag? && j.flag == i.flag)) ==>
      i.flag in o.params.flags && o.params.flags[i.flag] == i.on
  {
    var infos, k := a + [i] + b, |a|;
    assert infos[k] == i && forall j :: k < j < |infos| ==> infos[j] in b;
    if i.Text? && forall j :: j in b ==> !(j.Text? && j.key == i.key) {
      LastOfIsLast(infos, TextIn(i.key), None, k);
      assert Lookup(o.params.texts, i.key) == Some(i.text);
    }
    if i.Flag? && forall j :: j in b ==> !(j.Flag? && j.flag == i.flag) {
      LastOfIsLast(infos, FlagIn(i.flag), None, k);
      assert Lookup(o.params.flags, i.flag) == Some(i.on);
    }
  }

  // What no directive gives stays as it was: no session, zero, and below, absent.
  lemma KeepsDefaults(infos: seq<Info>, o: Outcome)
    requires Describes(infos, o)
    ensures (forall j :: j in infos ==> !(j.SessionId? && j.id.Good?)) ==> o.params.sessionId == 0xFFFF_FFFF
    ensures (forall j :: j in infos ==> !(j.NumNodes? && j.nodes.Good?)) ==> o.params.numNodes == 0
    ensures (forall j :: j in infos ==> !(j.NumCpus? && j.cpus.Good?)) ==> o.params.numCpus == 0
    ensures (forall j :: j in infos ==> !(j.MemSize? && j.mem.Good?)) ==> o.params.memSize == 0.0
  {
    if forall j :: j in infos ==> !(j.SessionId? && j.id.Good?) {
      LastOfNone(infos, SessionIn(), NO_SESSION);
    }
    if forall j :: j in infos ==> !(j.NumNodes? && j.nodes.Good?) {
      LastOfNone(infos, NodesIn(), 0);
    }
    if forall j :: j in infos ==> !(j.NumCpus? && j.cpus.Good?) {
      LastOfNone(infos, CpusIn(), 0);
    }
    if forall j :: j in infos ==> !(j.MemSize? && j.mem.Good?) {
      LastOfNone(infos, MemoryIn(), 0.0);
    }
  }

  lemma KeepsAbsent(infos: seq<Info>, o: Outcome, t: TextKey, f: FlagKey)
    requires Describes(infos, o)
    ensures (forall j :: j in infos ==> !(j.Text? && j.key == t)) ==> t !in o.params.texts
    ensures (forall j :: j in infos ==> !(j.Flag? && j.flag == f)) ==> f !in o.params.flags
  {
    if forall j :: j in infos ==> !(j.Text? && j.key == t) {
      LastOfNone(infos, TextIn(t), None);
      assert Lookup(o.params.texts, t).None?;
    }
    if forall j :: j in infos ==> !(j.Flag? && j.flag == f) {
      LastOfNone(infos, FlagIn(f), None);
      assert Lookup(o.params.flags, f).None?;
    }
  }

  // The loop over the directives. It never stops early: later directives are still recorded
  // after one has failed, because they may be needed to report the error.
  method Process(infos: seq<Info>) returns (o: Outcome)
    ensures Describes(infos, o)
  {
    var error, notWaiting, p := 0, false, NO_PARAMS;
    for n := 0 to |infos|
      invariant Describes(infos[..n], Outcome(error, notWaiting, p))
    {
      assert infos[..n + 1] == infos[..n] + [infos[n]];
      FirstErrorAppend(infos[..n], infos[n]);
      assert infos[..n + 1][..n] == infos[..n];
      if ErrorOf(infos[n]) != 0 {
        if error == 0 {
          error := ErrorOf(infos[n]);
        }
        continue;
      }
      match infos[n]
      case SessionId(v) => p := p.(sessionId := v.value);
      case NumNodes(v) => p := p.(numNodes := ToInt32(v.value));
      case NumCpus(v) => p := p.(numCpus := ToInt32(v.value));
      case MemSize(v) => p := p.(memSize := v.value);
      case Text(k, t) => p := p.(texts := p.texts[k := t]);
      case Flag(k, b) => p := p.(flags := p.flags[k := b]);
      case NotWaiting => notWaiting := true;
      case Unrecognised =>
    }
    assert infos[..|infos|] == infos;
    o := Outcome(error, notWaiting, p);
  }

  function Parse(infos: seq<Info>): (o: Outcome)
    ensures Describes(infos, o)
  {
    Outcome(
      FirstError(infos),
      NotWaiting in infos,
      Params(
        LastOf(infos, SessionIn(), NO_SESSION),
        LastOf(infos, NodesIn(), 0),
        LastOf(infos, CpusIn(), 0),
        LastOf(infos, MemoryIn(), 0.0),
        map k: TextKey | LastOf(infos, TextIn(k), None).Some? :: LastOf(infos, TextIn(k), None).value,
        map k: FlagKey | LastOf(infos, FlagIn(k), None).Some? :: LastOf(infos, FlagIn(k), None).value))
  }

  // The description leaves no freedom, so the loop computes Parse.
  lemma DescriptionIsUnique(infos: seq<Info>, a: Outcome, b: Outcome)
    requires Describes(infos, a) && Describes(infos, b)
    ensures a == b
  {
    SameLookupsSameMap(a.params.texts, b.params.texts);
    SameLookupsSameMap(a.params.flags, b.params.flags);
  }

  lemma SameLookupsSameMap<K(!new), V>(a: map<K, V>, b: map<K, V>)
    requires forall k: K :: Lookup(a, k) == Lookup(b, k)
    ensures a == b
  {
    forall k: K
      ensures (k in a <==> k in b) && (k in a ==> a[k] == b[k])
    {
      assert Lookup(a, k) == Lookup(b, k);
    }
  }
}
