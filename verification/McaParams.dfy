// Precedence of MCA parameters: default files, the override file, the environment, and the command
// line, all of which end up as environment variables.
module McaParams {
  import opened Sums

  // One var = value line of a parameter file.
  datatype Entry = Entry(name: string, value: string)

  // What parsing a parameter file gives. A missing file is no error.
  datatype ParamFile = Parsed(entries: seq<Entry>) | NotFound | Unreadable(code: int)

  type Env = map<string, string>

  // Where the defaults come from: a system file and a user file, or an explicit list of files.
  datatype Sources = Defaults(system: ParamFile, user: ParamFile) | Explicit(files: seq<ParamFile>)

  const PMIX_PREFIX := "PMIX_MCA_"
  const DSCHED_PREFIX := "DSCHED_MCA_"

  // The environment variable of a parameter; isPmix is pmix_pmdl_base_check_pmix_param.
  function EnvName(isPmix: string -> bool, name: string): string {
    if isPmix(name) then PMIX_PREFIX + name else DSCHED_PREFIX + name
  }

  // PMIx parameters and all others are told apart by a prefix, so distinct parameters have distinct
  // environment variables.
  lemma EnvNameInjective(isPmix: string -> bool, a: string, b: string)
    ensures EnvName(isPmix, a) == if isPmix(a) then "PMIX_MCA_" + a else "DSCHED_MCA_" + a
    ensures EnvName(isPmix, a) == EnvName(isPmix, b) ==> a == b
  {
    if EnvName(isPmix, a) == EnvName(isPmix, b) {
      SameVariable(isPmix, a, b);
    }
  }

  lemma SameVariable(isPmix: string -> bool, a: string, b: string)
    requires EnvName(isPmix, a) == EnvName(isPmix, b)
    ensures a == b
  {
    assert EnvName(isPmix, a)[0] == EnvName(isPmix, b)[0];
    var n := if isPmix(a) then |PMIX_PREFIX| else |DSCHED_PREFIX|;
    assert EnvName(isPmix, a)[n..] == a && EnvName(isPmix, b)[n..] == b;
  }

  // ---- Looking a parameter up in a list that may hold it several times ----

  function First(es: seq<Entry>, name: string): Option<string> {
    if es == [] then None
    else if es[0].name == name then Some(es[0].value)
    else First(es[1..], name)
  }

  function Last(es: seq<Entry>, name: string): Option<string> {
    if es == [] then None
    else
      var n := |es| - 1;
      if es[n].name == name then Some(es[n].value) else Last(es[..n], name)
  }

  // First is the value of an entry that no entry of the name precedes; Last of one that none follows.
  lemma {:induction false} FirstIsFirst(es: seq<Entry>, name: string)
    ensures First(es, name).None? <==> forall k :: 0 <= k < |es| ==> es[k].name != name
    ensures First(es, name).Some? ==>
      exists k :: 0 <= k < |es| && es[k] == Entry(name, First(es, name).value)
               && forall j :: 0 <= j < k ==> es[j].name != name
  {
    if es != [] {
      assert forall k :: 1 <= k < |es| ==> es[k] == es[1..][k - 1];
      if es[0].name != name {
        FirstIsFirst(es[1..], name);
        if First(es, name).Some? {
          var k :| 0 <= k < |es[1..]| && es[1..][k] == Entry(name, First(es[1..], name).value)
                && forall j :: 0 <= j < k ==> es[1..][j].name != name;
          assert es[k + 1] == Entry(name, First(es, name).value);
        }
      } else {
        assert es[0] == Entry(name, First(es, name).value);
      }
    }
  }

  lemma {:induction false} LastIsLast(es: seq<Entry>, name: string)
    ensures Last(es, name).None? <==> forall k :: 0 <= k < |es| ==> es[k].name != name
    ensures Last(es, name).Some? ==>
      exists k :: 0 <= k < |es| && es[k] == Entry(name, Last(es, name).value)
               && forall j :: k < j < |es| ==> es[j].name != name
  {
    if es != [] {
      var n := |es| - 1;
      if es[n].name != name {
        LastIsLast(es[..n], name);
      } else {
        assert es[n] == Entry(name, Last(es, name).value);
      }
    }
  }

  function Or<T>(a: Option<T>, b: Option<T>): Option<T> { if a.Some? then a else b }

  lemma {:induction false} FirstConcat(xs: seq<Entry>, ys: seq<Entry>, name: string)
    ensures First(xs + ys, name) == Or(First(xs, name), First(ys, name))
  {
    if xs == [] {
      assert xs + ys == ys;
    } else {
      assert (xs + ys)[1..] == xs[1..] + ys;
      FirstConcat(xs[1..], ys, name);
    }
  }

  // The first entry for a name, wherever it is taken out of the list.
  lemma FirstSplit(es: seq<Entry>, k: nat, name: string)
    requires k < |es| && (forall i :: 0 <= i < k ==> es[i].name != es[k].name)
    ensures First(es, es[k].name) == Some(es[k].value)
    ensures name != es[k].name ==> First(es[..k] + es[k + 1..], name) == First(es, name)
  {
    assert es == es[..k] + ([es[k]] + es[k + 1..]);
    assert ([es[k]] + es[k + 1..])[1..] == es[k + 1..];
    FirstNone(es[..k], es[k].name);
    FirstConcat(es[..k], [es[k]] + es[k + 1..], es[k].name);
    FirstConcat(es[..k], [es[k]] + es[k + 1..], name);
    FirstConcat(es[..k], es[k + 1..], name);
  }

  lemma {:induction false} FirstNone(es: seq<Entry>, name: string)
    requires forall i :: 0 <= i < |es| ==> es[i].name != name
    ensures First(es, name).None?
  {
    if es != [] {
      FirstNone(es[1..], name);
    }
  }

  // ---- Environment ----

  function Get(env: Env, key: string): Option<string> {
    if key in env then Some(env[key]) else None
  }

  function SetEnv(env: Env, key: string, value: string, overwrite: bool): Env {
    if key in env && !overwrite then env else env[key := value]
  }

  // The value that the last of the entries gives to environment variable key.
  function LastSet(isPmix: string -> bool, es: seq<Entry>, key: string): Option<string> {
    if es == [] then None
    else
      var n := |es| - 1;
      if EnvName(isPmix, es[n].name) == key then Some(es[n].value) else LastSet(isPmix, es[..n], key)
  }

  function FirstSet(isPmix: string -> bool, es: seq<Entry>, key: string): Option<string> {
    if es == [] then None
    else if EnvName(isPmix, es[0].name) == key then Some(es[0].value)
    else FirstSet(isPmix, es[1..], key)
  }

  // Which entry sets a variable is a matter of the parameter alone.
  lemma {:induction false} SetByName(isPmix: string -> bool, es: seq<Entry>, name: string)
    ensures LastSet(isPmix, es, EnvName(isPmix, name)) == Last(es, name)
    ensures FirstSet(isPmix, es, EnvName(isPmix, name)) == First(es, name)
  {
    if es != [] {
      SetByName(isPmix, es[1..], name);
      SetByName(isPmix, es[..|es| - 1], name);
      if EnvName(isPmix, es[0].name) == EnvName(isPmix, name) {
        EnvNameInjective(isPmix, es[0].name, name);
      }
      if EnvName(isPmix, es[|es| - 1].name) == EnvName(isPmix, name) {
        EnvNameInjective(isPmix, es[|es| - 1].name, name);
      }
    }
  }

  // ---- The lists that the files give ----

  function Entries(f: ParamFile): seq<Entry> {
    if f.Parsed? then f.entries else []
  }

  function AllEntries(fs: seq<ParamFile>): seq<Entry> {
    if fs == [] then [] else AllEntries(fs[..|fs| - 1]) + Entries(fs[|fs| - 1])
  }

  function FirstCode(fs: seq<ParamFile>): Option<int> {
    if fs == [] then None
    else if fs[0].Unreadable? then Some(fs[0].code)
    else FirstCode(fs[1..])
  }

  // The entries of several files: an earlier file comes first.
  lemma {:induction false} EarlierFileFirst(fs: seq<ParamFile>, i: nat, name: string)
    requires i < |fs| && fs[i].Parsed?
    requires forall j :: 0 <= j < i && fs[j].Parsed? ==> First(fs[j].entries, name).None?
    ensures First(fs[i].entries, name).Some? ==> First(AllEntries(fs), name) == First(fs[i].entries, name)
    ensures i == |fs| - 1 && First(fs[i].entries, name).None? ==> First(AllEntries(fs), name).None?
  {
    var n := |fs| - 1;
    FirstConcat(AllEntries(fs[..n]), Entries(fs[n]), name);
    if i < n {
      EarlierFileFirst(fs[..n], i, name);
    } else {
      NothingBefore(fs[..n], name);
    }
  }

  lemma {:induction false} NothingBefore(fs: seq<ParamFile>, name: string)
    requires forall j :: 0 <= j < |fs| && fs[j].Parsed? ==> First(fs[j].entries, name).None?
    ensures First(AllEntries(fs), name).None?
  {
    if fs != [] {
      var n := |fs| - 1;
      FirstConcat(AllEntries(fs[..n]), Entries(fs[n]), name);
      NothingBefore(fs[..n], name);
    }
  }

  lemma {:induction false} FirstCodeIsFirst(fs: seq<ParamFile>)
    ensures FirstCode(fs).None? <==> forall i :: 0 <= i < |fs| ==> !fs[i].Unreadable?
    ensures FirstCode(fs).Some? ==>
      exists i :: 0 <= i < |fs| && fs[i] == Unreadable(FirstCode(fs).value)
               && forall j :: 0 <= j < i ==> !fs[j].Unreadable?
  {
    if fs != [] {
      assert forall k :: 1 <= k < |fs| ==> fs[k] == fs[1..][k - 1];
      if !fs[0].Unreadable? {
        FirstCodeIsFirst(fs[1..]);
        if FirstCode(fs).Some? {
          var i :| 0 <= i < |fs[1..]| && fs[1..][i] == Unreadable(FirstCode(fs[1..]).value)
                && forall j :: 0 <= j < i ==> !fs[1..][j].Unreadable?;
          assert fs[i + 1] == Unreadable(FirstCode(fs).value);
        }
      } else {
        assert fs[0] == Unreadable(FirstCode(fs).value);
      }
    }
  }

  // The files read, in order.
  function Files(src: Sources): seq<ParamFile> {
    match src
    case Defaults(system, user) => [system, user]
    case Explicit(files) => files
  }

  function SystemEntries(src: Sources): seq<Entry> {
    match src
    case Defaults(system, _) => Entries(system)
    case Explicit(files) => AllEntries(files)
  }

  function UserEntries(src: Sources): seq<Entry> {
    match src
    case Defaults(_, user) => Entries(user)
    case Explicit(_) => []
  }

  // The value of a default: the first user entry for it, else the first system entry.
  function Default(src: Sources, name: string): Option<string> {
    Or(First(UserEntries(src), name), First(SystemEntries(src), name))
  }

  // ---- The command line ----

  // The three command-line options that give parameters, each a list of name=value strings.
  datatype Cli = Cli(pmixmca: seq<string>, mca: seq<string>, dmca: seq<string>)

  predicate HasEquals(s: string) { exists i :: 0 <= i < |s| && s[i] == '=' }

  // The first '=' splits a name=value string.
  function EqualsAt(s: string): (i: nat)
    requires HasEquals(s)
    ensures i < |s| && s[i] == '=' && forall k :: 0 <= k < i ==> s[k] != '='
  {
    if s[0] == '=' then 0
    else
      assert forall i :: 1 <= i < |s| ==> s[i] == s[1..][i - 1];
      1 + EqualsAt(s[1..])
  }

  function Split(s: string): Entry
    requires HasEquals(s)
  {
    Entry(s[..EqualsAt(s)], s[EqualsAt(s) + 1..])
  }

  // The value that the last of the options gives to environment variable key.
  function LastOption(opts: seq<string>, prefix: string, key: string): Option<string>
    requires forall i :: 0 <= i < |opts| ==> HasEquals(opts[i])
  {
    if opts == [] then None
    else
      var n := |opts| - 1;
      if prefix + Split(opts[n]).name == key then Some(Split(opts[n]).value)
      else LastOption(opts[..n], prefix, key)
  }

  // That is the value of an option name=value for which prefix and name make the variable, and that no
  // such option follows. The value starts after the first equals sign.
  predicate Sets(opt: string, prefix: string, key: string, value: string) {
    exists i :: 0 <= i < |opt| && opt[i] == '=' && '=' !in opt[..i] && prefix + opt[..i] == key && opt[i + 1..] == value
  }

  lemma SplitSets(opt: string, prefix: string, key: string)
    requires HasEquals(opt)
    ensures prefix + Split(opt).name == key ==> Sets(opt, prefix, key, Split(opt).value)
    ensures prefix + Split(opt).name != key ==> forall value :: !Sets(opt, prefix, key, value)
  {
    var e := EqualsAt(opt);
    assert '=' !in opt[..e] && forall i :: e < i <= |opt| ==> opt[..i][e] == '=';
  }

  lemma {:induction false} LastOptionIsLast(opts: seq<string>, prefix: string, key: string)
    requires forall i :: 0 <= i < |opts| ==> HasEquals(opts[i])
    ensures LastOption(opts, prefix, key).None? <==>
      forall k, value :: 0 <= k < |opts| ==> !Sets(opts[k], prefix, key, value)
    ensures LastOption(opts, prefix, key).Some? ==>
      exists k :: 0 <= k < |opts| && Sets(opts[k], prefix, key, LastOption(opts, prefix, key).value)
               && forall j, value :: k < j < |opts| ==> !Sets(opts[j], prefix, key, value)
  {
    if opts != [] {
      var n := |opts| - 1;
      SplitSets(opts[n], prefix, key);
      if prefix + Split(opts[n]).name != key {
        LastOptionIsLast(opts[..n], prefix, key);
      } else {
        assert Sets(opts[n], prefix, key, LastOption(opts, prefix, key).value);
      }
    }
  }

  ghost predicate WellFormedCli(cli: Cli) {
    && (forall i :: 0 <= i < |cli.pmixmca| ==> HasEquals(cli.pmixmca[i]))
    && (forall i :: 0 <= i < |cli.mca| ==> HasEquals(cli.mca[i]))
    && (forall i :: 0 <= i < |cli.dmca| ==> HasEquals(cli.dmca[i]))
  }

  function CliValue(cli: Cli, key: string): Option<string>
    requires WellFormedCli(cli)
  {
    Or(LastOption(cli.dmca, DSCHED_PREFIX, key),
       Or(LastOption(cli.mca, DSCHED_PREFIX, key), LastOption(cli.pmixmca, PMIX_PREFIX, key)))
  }

  // ---- The process environment and the two functions that update it ----

  class Environment {
    var env: Env

    constructor (env: Env)
      ensures this.env == env
    {
      this.env := env;
    }

    // The cross-check of the two default lists: the user's first entry for a name takes the place
    // of the system's.
    method CrossCheck(system: seq<Entry>, user: seq<Entry>) returns (pfinal: seq<Entry>)
      ensures forall name :: First(pfinal, name) == Or(First(user, name), First(system, name))
    {
      var params, params2 := system, user;
      pfinal := [];
      while params != []
        invariant forall name ::
          Or(First(pfinal, name), Or(First(params2, name), First(params, name)))
          == Or(First(user, name), First(system, name))
        decreases |params|
      {
        var fv := params[0];
        var k := 0;
        while k < |params2| && params2[k].name != fv.name
          invariant 0 <= k <= |params2|
          invariant forall i :: 0 <= i < k ==> params2[i].name != fv.name
        {
          k := k + 1;
        }
        ghost var pfinal0, params0, params20 := pfinal, params, params2;
        if k < |params2| {
          pfinal := pfinal + [params2[k]];
          params2 := params2[..k] + params2[k + 1..];
        } else {
          pfinal := pfinal + [fv];
        }
        params := params[1..];
        forall name
          ensures Or(First(pfinal, name), Or(First(params2, name), First(params, name)))
               == Or(First(pfinal0, name), Or(First(params20, name), First(params0, name)))
        {
          CrossCheckStep(pfinal0, params20, params0, k, name);
        }
      }
      forall name
        ensures First(pfinal + params2, name) == Or(First(pfinal, name), First(params2, name))
      {
        FirstConcat(pfinal, params2, name);
      }
      pfinal := pfinal + params2;
    }

    // Override entries replace the values of matching defaults.
    method RewriteDefaults(defaults: seq<Entry>, overrides: seq<Entry>) returns (pfinal: seq<Entry>)
      ensures |pfinal| == |defaults|
      ensures forall i :: 0 <= i < |defaults| ==> pfinal[i] == Rewritten(defaults[i], overrides)
      ensures forall i :: 0 <= i < |defaults| ==>
        && pfinal[i].name == defaults[i].name
        && Some(pfinal[i].value) == Or(First(overrides, defaults[i].name), Some(defaults[i].value))
    {
      pfinal := defaults;
      for i := 0 to |defaults|
        invariant |pfinal| == |defaults|
        invariant forall j :: 0 <= j < i ==> pfinal[j] == Rewritten(defaults[j], overrides)
        invariant forall j :: i <= j < |defaults| ==> pfinal[j] == defaults[j]
      {
        var k := 0;
        while k < |overrides| && overrides[k].name != pfinal[i].name
          invariant 0 <= k <= |overrides|
          invariant forall j :: 0 <= j < k ==> overrides[j].name != defaults[i].name
        {
          k := k + 1;
        }
        if k < |overrides| {
          FirstSplit(overrides, k, defaults[i].name);
          pfinal := pfinal[i := overrides[k]];
        } else {
          FirstNone(overrides, defaults[i].name);
        }
      }
    }

    // setenv for every entry, replacing what is there.
    method SetAll(isPmix: string -> bool, es: seq<Entry>)
      modifies this
      ensures forall key :: Get(env, key) == Or(LastSet(isPmix, es, key), Get(old(env), key))
    {
      for i := 0 to |es|
        invariant forall key :: Get(env, key) == Or(LastSet(isPmix, es[..i], key), Get(old(env), key))
      {
        assert es[..i + 1][..i] == es[..i];
        env := SetEnv(env, EnvName(isPmix, es[i].name), es[i].value, true);
      }
      assert es[..|es|] == es;
    }

    // setenv for every entry, keeping what is there.
    method SetMissing(isPmix: string -> bool, es: seq<Entry>)
      modifies this
      ensures forall key :: Get(env, key) == Or(Get(old(env), key), FirstSet(isPmix, es, key))
    {
      for i := 0 to |es|
        invariant forall key :: Get(env, key) == Or(Get(old(env), key), FirstSet(isPmix, es[..i], key))
      {
        assert es[..i + 1] == es[..i] + [es[i]];
        ghost var before := env;
        env := SetEnv(env, EnvName(isPmix, es[i].name), es[i].value, false);
        forall key
          ensures Get(env, key) == Or(Get(old(env), key), FirstSet(isPmix, es[..i + 1], key))
        {
          FirstSetAppend(isPmix, es[..i], es[i], key);
          assert Get(env, key) == Or(Get(before, key), FirstSet(isPmix, [es[i]], key));
        }
      }
      assert es[..|es|] == es;
    }

    // Reads the files; the first one that cannot be read stops it.
    method ReadDefaults(src: Sources) returns (code: Option<int>, params: seq<Entry>, params2: seq<Entry>)
      ensures code == FirstCode(Files(src))
      ensures code.None? ==> params == SystemEntries(src) && params2 == UserEntries(src)
    {
      params, params2 := [], [];
      match src
      case Defaults(system, user) =>
        if system.Unreadable? {
          return Some(system.code), params, params2;
        }
        params := Entries(system);
        if user.Unreadable? {
          assert Files(src)[1..] == [user];
          return Some(user.code), params, params2;
        }
        params2 := Entries(user);
        assert Files(src)[1..] == [user] && [user][1..] == [];
        assert FirstCode([user]).None?;
        code := None;
      case Explicit(files) =>
        for i := 0 to |files|
          invariant params == AllEntries(files[..i]) && params2 == []
          invariant FirstCode(files) == FirstCode(files[i..])
        {
          assert files[i..][1..] == files[i + 1..];
          assert files[..i + 1][..i] == files[..i];
          if files[i].Unreadable? {
            return Some(files[i].code), params, params2;
          }
          params := params + Entries(files[i]);
        }
        assert files[..|files|] == files && files[|files|..] == [];
        code := None;
    }

    // dsched_preload_default_mca_params; overrideFile is None when no override file is configured.
    method PreloadDefaults(isPmix: string -> bool, src: Sources, overrideFile: Option<ParamFile>)
      returns (code: Option<int>)
      modifies this
      ensures code == PreloadCode(src, overrideFile)
      ensures code.Some? ==> env == old(env)
      ensures code.None? ==> forall name ::
        Get(env, EnvName(isPmix, name))
        == Or(Last(Overrides(overrideFile), name), Or(Get(old(env), EnvName(isPmix, name)), Default(src, name)))
      ensures forall key :: (forall name :: EnvName(isPmix, name) != key) ==> Get(env, key) == Get(old(env), key)
    {
      var params, params2;
      code, params, params2 := ReadDefaults(src);
      if code.Some? {
        return;
      }
      var pfinal := CrossCheck(params, params2);
      ghost var defaults := pfinal;
      if overrideFile.Some? {
        if overrideFile.value.Unreadable? {
          return Some(overrideFile.value.code);
        }
        params := Entries(overrideFile.value);
        if 0 < |params| {
          pfinal := RewriteDefaults(pfinal, params);
          SetAll(isPmix, params);
        }
      }
      ghost var between := env;
      SetMissing(isPmix, pfinal);
      forall name
        ensures Get(env, EnvName(isPmix, name))
             == Or(Last(Overrides(overrideFile), name), Or(Get(old(env), EnvName(isPmix, name)), Default(src, name)))
      {
        SetByName(isPmix, Overrides(overrideFile), name);
        SetByName(isPmix, pfinal, name);
        if Last(Overrides(overrideFile), name).None? {
          RewritingKeepsOthers(defaults, pfinal, Overrides(overrideFile), name);
        }
      }
      forall key | forall name :: EnvName(isPmix, name) != key
        ensures Get(env, key) == Get(old(env), key)
      {
        NothingSets(isPmix, Overrides(overrideFile), key);
        NothingSets(isPmix, pfinal, key);
      }
    }

    method SetOptions(opts: seq<string>, prefix: string)
      requires forall i :: 0 <= i < |opts| ==> HasEquals(opts[i])
      modifies this
      ensures forall key :: Get(env, key) == Or(LastOption(opts, prefix, key), Get(old(env), key))
    {
      for n := 0 to |opts|
        invariant forall key :: Get(env, key) == Or(LastOption(opts[..n], prefix, key), Get(old(env), key))
      {
        assert opts[..n + 1][..n] == opts[..n];
        var e := Split(opts[n]);
        env := SetEnv(env, prefix + e.name, e.value, true);
      }
      assert opts[..|opts|] == opts;
    }

    // dsched_process_cli_mca_params
    method ProcessCli(cli: Cli)
      requires WellFormedCli(cli)
      modifies this
      ensures forall key :: Get(env, key) == Or(CliValue(cli, key), Get(old(env), key))
      ensures forall key ::
        Get(env, key)
        == Or(LastOption(cli.dmca, "DSCHED_MCA_", key),
           Or(LastOption(cli.mca, "DSCHED_MCA_", key),
           Or(LastOption(cli.pmixmca, "PMIX_MCA_", key), Get(old(env), key))))
    {
      SetOptions(cli.pmixmca, PMIX_PREFIX);
      SetOptions(cli.mca, DSCHED_PREFIX);
      SetOptions(cli.dmca, DSCHED_PREFIX);
    }

    // Both, as at start-up. The status of the first is ignored there, so the command line applies
    // even when a file cannot be read. Each parameter ends with the value of the command line, else
    // of the override file, else of the environment it started from, else of the user's defaults,
    // else of the system's; after a file error only the command line and the environment count.
    // Every other variable is untouched.
    method Load(isPmix: string -> bool, src: Sources, overrideFile: Option<ParamFile>, cli: Cli)
      requires WellFormedCli(cli)
      modifies this
      ensures PreloadCode(src, overrideFile).Some? ==>
        forall key :: Get(env, key) == Or(CliValue(cli, key), Get(old(env), key))
      ensures PreloadCode(src, overrideFile).None? ==> forall name ::
        Get(env, EnvName(isPmix, name))
        == Or(CliValue(cli, EnvName(isPmix, name)),
           Or(Last(Overrides(overrideFile), name),
           Or(Get(old(env), EnvName(isPmix, name)),
              if src.Defaults? then Or(First(Entries(src.user), name), First(Entries(src.system), name))
              else First(AllEntries(src.files), name))))
      ensures forall key :: (forall name :: EnvName(isPmix, name) != key) && CliValue(cli, key).None? ==>
        Get(env, key) == Get(old(env), key)
    {
      var code := PreloadDefaults(isPmix, src, overrideFile);
      ProcessCli(cli);
    }
  }

  // A default as the override file leaves it.
  function Rewritten(e: Entry, overrides: seq<Entry>): Entry {
    match First(overrides, e.name)
    case Some(v) => Entry(e.name, v)
    case None => e
  }

  function Overrides(f: Option<ParamFile>): seq<Entry> {
    if f.Some? then Entries(f.value) else []
  }

  // The first file that cannot be read, the override file being read last.
  function PreloadCode(src: Sources, overrideFile: Option<ParamFile>): Option<int> {
    Or(FirstCode(Files(src)),
       if overrideFile.Some? && overrideFile.value.Unreadable? then Some(overrideFile.value.code) else None)
  }

  // It is that of the first file, in this order, that there is and that cannot be read: the system's and
  // the user's, or those of the list, and then the override file.
  lemma PreloadFails(src: Sources, overrideFile: Option<ParamFile>)
    ensures var files := (match src case Defaults(s, u) => [s, u] case Explicit(fs) => fs)
                         + (if overrideFile.Some? then [overrideFile.value] else []);
            && (PreloadCode(src, overrideFile).None? <==> forall i :: 0 <= i < |files| ==> !files[i].Unreadable?)
            && (PreloadCode(src, overrideFile).Some? ==>
                  exists i :: 0 <= i < |files| && files[i] == Unreadable(PreloadCode(src, overrideFile).value)
                           && forall j :: 0 <= j < i ==> !files[j].Unreadable?)
  {
    var fs, last := Files(src), if overrideFile.Some? then [overrideFile.value] else [];
    FirstCodeIsFirst(fs);
    assert forall i :: 0 <= i < |fs| ==> (fs + last)[i] == fs[i];
    if overrideFile.Some? {
      assert (fs + last)[|fs|] == overrideFile.value;
    }
  }

  lemma {:induction false} FirstSetAppend(isPmix: string -> bool, es: seq<Entry>, e: Entry, key: string)
    ensures FirstSet(isPmix, es + [e], key) == Or(FirstSet(isPmix, es, key), FirstSet(isPmix, [e], key))
  {
    if es == [] {
      assert es + [e] == [e];
    } else {
      assert (es + [e])[1..] == es[1..] + [e];
      FirstSetAppend(isPmix, es[1..], e, key);
    }
  }

  lemma {:induction false} NothingSets(isPmix: string -> bool, es: seq<Entry>, key: string)
    requires forall name :: EnvName(isPmix, name) != key
    ensures LastSet(isPmix, es, key).None? && FirstSet(isPmix, es, key).None?
  {
    if es != [] {
      NothingSets(isPmix, es[..|es| - 1], key);
      NothingSets(isPmix, es[1..], key);
    }
  }

  lemma {:induction false} LastNoneFirstNone(es: seq<Entry>, name: string)
    ensures Last(es, name).None? <==> First(es, name).None?
  {
    if es != [] {
      var n := |es| - 1;
      LastNoneFirstNone(es[..n], name);
      assert es == es[..n] + [es[n]];
      FirstConcat(es[..n], [es[n]], name);
    }
  }

  // Rewriting the defaults has no effect on parameters that are not overridden.
  lemma {:induction false} RewritingKeepsOthers(defaults: seq<Entry>, pfinal: seq<Entry>, overrides: seq<Entry>,
      name: string)
    requires |pfinal| == |defaults| && Last(overrides, name).None?
    requires forall i :: 0 <= i < |defaults| ==>
      pfinal[i] == defaults[i] || (overrides != [] && pfinal[i] == Rewritten(defaults[i], overrides))
    ensures First(pfinal, name) == First(defaults, name)
  {
    if defaults != [] {
      LastNoneFirstNone(overrides, name);
      RewritingKeepsOthers(defaults[1..], pfinal[1..], overrides, name);
    }
  }

  // One turn of the cross-check keeps the value that each name will get.
  lemma CrossCheckStep(pfinal: seq<Entry>, params2: seq<Entry>, params: seq<Entry>, k: nat, name: string)
    requires params != [] && k <= |params2|
    requires forall i :: 0 <= i < k ==> params2[i].name != params[0].name
    requires k < |params2| ==> params2[k].name == params[0].name
    ensures
      var pfinal' := pfinal + [if k < |params2| then params2[k] else params[0]];
      var params2' := if k < |params2| then params2[..k] + params2[k + 1..] else params2;
      Or(First(pfinal', name), Or(First(params2', name), First(params[1..], name)))
      == Or(First(pfinal, name), Or(First(params2, name), First(params, name)))
  {
    var e := if k < |params2| then params2[k] else params[0];
    FirstConcat(pfinal, [e], name);
    if k < |params2| {
      FirstSplit(params2, k, name);
    } else {
      FirstNone(params2, params[0].name);
    }
  }
}
