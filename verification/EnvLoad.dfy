/** `load_env_file`: the merge of the project's .env, the system config.env and
    the platform defaults into the process environment. */
module EnvLoad {
  import opened Text

  type Env = map<string, string>

  /** The parsed files; a missing file is an empty one. */
  datatype Files = Files(project: Env, system: Env, common: Env, platform: Env)

  /** `os.environ` and `_DEFAULT_INJECTED`. */
  datatype State = State(environ: Env, injected: Env)

  function Get(m: Env, k: string): Option<string> {
    if k in m then Some(m[k]) else None
  }

  /** `_is_injected_default` */
  predicate IsInjected(s: State, k: string) {
    k in s.injected && Get(s.environ, k) == Some(s.injected[k])
  }

  /** A variable that the process holds and no load put there as a default. */
  predicate IsReal(s: State, k: string) {
    k in s.environ && !IsInjected(s, k)
  }

  // ----- what a load comes to, variable by variable -----------------------

  function OrElse(a: Option<string>, b: Option<string>): Option<string> {
    if a.Some? then a else b
  }

  /** The default a load injects for a variable not yet set. */
  function DefaultOf(f: Files, k: string): Option<string> {
    OrElse(Get(f.common, k), Get(f.platform, k))
  }

  /** The declared order: real environment, project file, system file, what is
      set already, common defaults, platform defaults. */
  function Resolved(s: State, f: Files, k: string): Option<string> {
    if IsReal(s, k) then Get(s.environ, k)
    else OrElse(Get(f.project, k), OrElse(Get(f.system, k), OrElse(Get(s.environ, k), DefaultOf(f, k))))
  }

  /** The default recorded for a variable after a load. */
  function Recorded(s: State, f: Files, k: string): Option<string> {
    if !IsReal(s, k) && k !in f.project && k in f.system then Get(f.system, k)
    else if k !in s.environ then OrElse(DefaultOf(f, k), Get(s.injected, k))
    else Get(s.injected, k)
  }

  function Names(s: State, f: Files): set<string> {
    s.environ.Keys + s.injected.Keys + f.project.Keys + f.system.Keys + f.common.Keys + f.platform.Keys
  }

  /** The state after a load. */
  function Loaded(s: State, f: Files): State {
    State(map k | k in Names(s, f) && Resolved(s, f, k).Some? :: Resolved(s, f, k).value,
          map k | k in Names(s, f) && Recorded(s, f, k).Some? :: Recorded(s, f, k).value)
  }

  lemma LoadedAt(s: State, f: Files, k: string)
    ensures Get(Loaded(s, f).environ, k) == Resolved(s, f, k)
    ensures Get(Loaded(s, f).injected, k) == Recorded(s, f, k)
  {}

  // ----- what follows ----------------------------------------------------

  /** In a fresh process the files rank as documented. */
  lemma FirstLoadPrecedence(real_: Env, f: Files, k: string)
    ensures Get(Loaded(State(real_, map[]), f).environ, k)
         == OrElse(Get(real_, k), OrElse(Get(f.project, k), OrElse(Get(f.system, k),
              OrElse(Get(f.common, k), Get(f.platform, k)))))
  {}

  lemma SameState(a: State, b: State)
    requires forall k :: Get(a.environ, k) == Get(b.environ, k)
    requires forall k :: Get(a.injected, k) == Get(b.injected, k)
    ensures a == b
  {
    SameEnv(a.environ, b.environ);
    SameEnv(a.injected, b.injected);
  }

  lemma SameEnv(a: Env, b: Env)
    requires forall k :: Get(a, k) == Get(b, k)
    ensures a == b
  {
    forall k ensures k in a <==> k in b { assert Get(a, k) == Get(b, k); }
    forall k | k in a ensures a[k] == b[k] { assert Get(a, k) == Get(b, k); }
  }

  /** Loading the same files again changes nothing, from any state whatever:
      it does no harm that the load is never skipped. */
  lemma LoadIsIdempotent(s: State, f: Files)
    ensures Loaded(Loaded(s, f), f) == Loaded(s, f)
  {
    var t := Loaded(s, f);
    forall k
      ensures Get(Loaded(t, f).environ, k) == Get(t.environ, k)
      ensures Get(Loaded(t, f).injected, k) == Get(t.injected, k)
    {
      LoadAgainAt(s, t, f, k);
      LoadedAt(t, f, k);
    }
    SameState(Loaded(t, f), t);
  }

  lemma LoadAgainAt(s: State, t: State, f: Files, k: string)
    requires t == Loaded(s, f)
    ensures Resolved(t, f, k) == Get(t.environ, k) && Recorded(t, f, k) == Get(t.injected, k)
  {}

  datatype Event = Load(files: Files) | Assign(name: string, value: string) | Unset(name: string)

  function Step(s: State, ev: Event): State {
    match ev
    case Load(f) => Loaded(s, f)
    case Assign(n, v) => s.(environ := s.environ[n := v])
    case Unset(n) => s.(environ := s.environ - {n})
  }

  function Steps(s: State, events: seq<Event>): State
    decreases |events|
  {
    if events == [] then s else Steps(Step(s, events[0]), events[1..])
  }

  lemma StepLeaves(s: State, ev: Event, k: string)
    requires IsReal(s, k) && (ev.Load? || ev.name != k)
    ensures IsReal(Step(s, ev), k) && Get(Step(s, ev).environ, k) == Get(s.environ, k)
  {}

  /** Once a variable holds a real value, only the process itself changes it,
      however many loads of whatever files follow and whatever else is set. */
  lemma {:induction false} RealValueSurvives(s: State, events: seq<Event>, k: string)
    requires IsReal(s, k)
    requires forall i :: 0 <= i < |events| ==> events[i].Load? || events[i].name != k
    ensures IsReal(Steps(s, events), k) && Get(Steps(s, events).environ, k) == Get(s.environ, k)
    decreases |events|
  {
    if events != [] {
      StepLeaves(s, events[0], k);
      RealValueSurvives(Step(s, events[0]), events[1..], k);
    }
  }

  /** An edit of the project file reaches a process that has loaded it exactly
      if the old value equals the default recorded for the variable (or there is
      nothing to see): a value taken from the project file counts as real
      environment from then on. */
  lemma ReloadSeesEdit(real_: Env, f: Files, k: string, b: string)
    requires k !in real_ && k in f.project
    ensures var once := Loaded(State(real_, map[]), f);
      var again := Loaded(once, f.(project := f.project[k := b]));
      Get(again.environ, k) == Some(b)
      <==> f.project[k] == b || DefaultOf(f, k) == Some(f.project[k])
  {
    var s := State(real_, map[]);
    var g := f.(project := f.project[k := b]);
    LoadedAt(s, f, k);
    LoadedAt(Loaded(s, f), g, k);
  }

  // ----- the stages of one load ------------------------------------------

  /** `t` is `s` after a defaults file, but for the names still in `todo`. */
  ghost predicate DefaultsDone(s: State, file: Env, todo: set<string>, t: State) {
    forall k :: DefaultDone(s, file, todo, t, k)
  }

  predicate DefaultDone(s: State, file: Env, todo: set<string>, t: State, k: string) {
    var sets := k !in s.environ && k in file && k !in todo;
    && Get(t.environ, k) == (if sets then Get(file, k) else Get(s.environ, k))
    && Get(t.injected, k) == (if sets then Get(file, k) else Get(s.injected, k))
  }

  predicate SystemSets(s: State, file: Env, project: Env, realKeys: set<string>, k: string) {
    k in file && k !in realKeys && k !in project && (k !in s.environ || IsInjected(s, k))
  }

  ghost predicate SystemDone(s: State, file: Env, project: Env, realKeys: set<string>, todo: set<string>, t: State) {
    forall k :: SystemDoneAt(s, file, project, realKeys, todo, t, k)
  }

  predicate SystemDoneAt(s: State, file: Env, project: Env, realKeys: set<string>, todo: set<string>, t: State, k: string) {
    var sets := k !in todo && SystemSets(s, file, project, realKeys, k);
    && Get(t.environ, k) == (if sets then Get(file, k) else Get(s.environ, k))
    && Get(t.injected, k) == (if sets then Get(file, k) else Get(s.injected, k))
  }

  ghost predicate ProjectDone(s: State, file: Env, realKeys: set<string>, todo: set<string>, t: State) {
    forall k :: ProjectDoneAt(s, file, realKeys, todo, t, k)
  }

  predicate ProjectDoneAt(s: State, file: Env, realKeys: set<string>, todo: set<string>, t: State, k: string) {
    && Get(t.environ, k) == (if k in file && k !in todo && k !in realKeys then Get(file, k) else Get(s.environ, k))
    && Get(t.injected, k) == Get(s.injected, k)
  }

  lemma DefaultsStep(s: State, file: Env, todo: set<string>, t: State, t': State, key: string)
    requires DefaultsDone(s, file, todo, t) && key in todo && key in file
    requires if key in t.environ then t' == t
             else t' == State(t.environ[key := file[key]], t.injected[key := file[key]])
    ensures DefaultsDone(s, file, todo - {key}, t')
  {
    assert DefaultDone(s, file, todo, t, key);
    forall k ensures DefaultDone(s, file, todo - {key}, t', k) { assert DefaultDone(s, file, todo, t, k); }
  }

  lemma SystemStep(s: State, file: Env, project: Env, realKeys: set<string>, todo: set<string>,
                   t: State, t': State, key: string)
    requires SystemDone(s, file, project, realKeys, todo, t) && key in todo && key in file
    requires if key !in realKeys && key !in project && (key !in t.environ || IsInjected(t, key))
             then t' == State(t.environ[key := file[key]], t.injected[key := file[key]]) else t' == t
    ensures SystemDone(s, file, project, realKeys, todo - {key}, t')
  {
    assert SystemDoneAt(s, file, project, realKeys, todo, t, key);
    forall k ensures SystemDoneAt(s, file, project, realKeys, todo - {key}, t', k) {
      assert SystemDoneAt(s, file, project, realKeys, todo, t, k);
    }
  }

  lemma ProjectStep(s: State, file: Env, realKeys: set<string>, todo: set<string>, t: State, t': State, key: string)
    requires ProjectDone(s, file, realKeys, todo, t) && key in todo && key in file
    requires t' == if key !in realKeys then t.(environ := t.environ[key := file[key]]) else t
    ensures ProjectDone(s, file, realKeys, todo - {key}, t')
  {
    forall k ensures ProjectDoneAt(s, file, realKeys, todo - {key}, t', k) {
      assert ProjectDoneAt(s, file, realKeys, todo, t, k);
    }
  }

  /** The four stages make up a load. */
  lemma StagesLoad(s: State, f: Files, c: State, d: State, y: State, e: State, realKeys: set<string>)
    requires forall k :: k in realKeys <==> IsReal(s, k)
    requires DefaultsDone(s, f.common, {}, c) && DefaultsDone(c, f.platform, {}, d)
    requires SystemDone(d, f.system, f.project, realKeys, {}, y)
    requires ProjectDone(y, f.project, realKeys, {}, e)
    ensures e == Loaded(s, f)
  {
    forall k
      ensures Get(e.environ, k) == Get(Loaded(s, f).environ, k)
      ensures Get(e.injected, k) == Get(Loaded(s, f).injected, k)
    {
      LoadedAt(s, f, k);
      StagesLoadAt(s, f, c, d, y, e, realKeys, k);
    }
    SameState(e, Loaded(s, f));
  }

  lemma StagesLoadAt(s: State, f: Files, c: State, d: State, y: State, e: State, realKeys: set<string>, k: string)
    requires k in realKeys <==> IsReal(s, k)
    requires DefaultsDone(s, f.common, {}, c) && DefaultsDone(c, f.platform, {}, d)
    requires SystemDone(d, f.system, f.project, realKeys, {}, y)
    requires ProjectDone(y, f.project, realKeys, {}, e)
    ensures Get(e.environ, k) == Resolved(s, f, k) && Get(e.injected, k) == Recorded(s, f, k)
  {
    assert DefaultDone(s, f.common, {}, c, k);
    assert DefaultDone(c, f.platform, {}, d, k);
    assert SystemDoneAt(d, f.system, f.project, realKeys, {}, y, k);
    assert ProjectDoneAt(y, f.project, realKeys, {}, e, k);
    DefaultsAt(s, f, c, d, k);
    LaterStagesAt(s, f, d, y, e, realKeys, k);
  }

  /** What a variable is after both defaults files. */
  predicate Defaulted(s: State, f: Files, d: State, k: string) {
    && Get(d.environ, k) == OrElse(Get(s.environ, k), DefaultOf(f, k))
    && Get(d.injected, k) == if k in s.environ then Get(s.injected, k) else OrElse(DefaultOf(f, k), Get(s.injected, k))
  }

  lemma DefaultsAt(s: State, f: Files, c: State, d: State, k: string)
    requires DefaultDone(s, f.common, {}, c, k) && DefaultDone(c, f.platform, {}, d, k)
    ensures Defaulted(s, f, d, k)
  {}

  lemma LaterStagesAt(s: State, f: Files, d: State, y: State, e: State, realKeys: set<string>, k: string)
    requires (k in realKeys <==> IsReal(s, k)) && Defaulted(s, f, d, k)
    requires SystemDoneAt(d, f.system, f.project, realKeys, {}, y, k) && ProjectDoneAt(y, f.project, realKeys, {}, e, k)
    ensures Get(e.environ, k) == Resolved(s, f, k) && Get(e.injected, k) == Recorded(s, f, k)
  {}

  // ----- the loader ------------------------------------------------------

  class Loader {
    var environ: Env
    var injected: Env
    var envLoaded: bool

    constructor (environ: Env)
      ensures Abs() == State(environ, map[]) && !envLoaded
    {
      this.environ, injected, envLoaded := environ, map[], false;
    }

    function Abs(): State
      reads this
    {
      State(environ, injected)
    }

    /** One defaults file: sets what is not set yet. */
    method LoadDefaults(file: Env)
      modifies `environ, `injected
      ensures DefaultsDone(old(Abs()), file, {}, Abs())
    {
      var todo := file.Keys;
      ghost var s := Abs();
      while todo != {}
        invariant todo <= file.Keys && DefaultsDone(s, file, todo, Abs())
        decreases |todo|
      {
        var key :| key in todo;
        ghost var t := Abs();
        if key !in environ {
          environ := environ[key := file[key]];
          injected := injected[key := file[key]];
        }
        DefaultsStep(s, file, todo, t, Abs(), key);
        todo := todo - {key};
      }
    }

    /** The system file: what neither the real environment nor the project sets. */
    method LoadSystem(file: Env, project: Env, realKeys: set<string>)
      modifies `environ, `injected
      ensures SystemDone(old(Abs()), file, project, realKeys, {}, Abs())
    {
      var todo := file.Keys;
      ghost var s := Abs();
      while todo != {}
        invariant todo <= file.Keys && SystemDone(s, file, project, realKeys, todo, Abs())
        decreases |todo|
      {
        var key :| key in todo;
        ghost var t := Abs();
        if key !in realKeys && key !in project && (key !in environ || IsInjected(Abs(), key)) {
          environ := environ[key := file[key]];
          injected := injected[key := file[key]];
        }
        SystemStep(s, file, project, realKeys, todo, t, Abs(), key);
        todo := todo - {key};
      }
    }

    /** The project file: overrides all but the real environment. */
    method LoadProject(file: Env, realKeys: set<string>)
      modifies `environ
      ensures ProjectDone(old(Abs()), file, realKeys, {}, Abs())
    {
      var todo := file.Keys;
      ghost var s := Abs();
      while todo != {}
        invariant todo <= file.Keys && ProjectDone(s, file, realKeys, todo, Abs())
        decreases |todo|
      {
        var key :| key in todo;
        ghost var t := Abs();
        if key !in realKeys { environ := environ[key := file[key]]; }
        ProjectStep(s, file, realKeys, todo, t, Abs(), key);
        todo := todo - {key};
      }
    }

    /** `load_env_file(env_path)`; `explicit` is the parsed file at `env_path`.
        The flag that would skip a second load is never raised: the path it is
        tested on has been replaced by then. */
    method LoadEnvFile(explicit: Option<Env>, files: Files)
      modifies this
      ensures envLoaded == old(envLoaded)
      ensures Abs() == if explicit.None? && envLoaded then old(Abs())
                       else Loaded(old(Abs()), if explicit.Some? then files.(project := explicit.value) else files)
    {
      if explicit.None? && envLoaded { return; }
      ghost var s := Abs();
      var realKeys := set k | k in environ && !IsInjected(Abs(), k);
      var path := explicit;
      if path.None? { path := Some(files.project); }
      var project := path.value;
      LoadDefaults(files.common);
      ghost var c := Abs();
      LoadDefaults(files.platform);
      ghost var d := Abs();
      LoadSystem(files.system, project, realKeys);
      ghost var y := Abs();
      LoadProject(project, realKeys);
      envLoaded := envLoaded || path.None?;
      StagesLoad(s, files.(project := project), c, d, y, Abs(), realKeys);
    }
  }
}
