/**
 * The lazily filled announcement-service slot, racing with configuration.
 * Every lock region of the program is one atomic step.
 */
module AnnouncementSlot {
  import opened Options

  /** A service object: its identity, its directory, and whether a getter built it. */
  datatype Service = Service(id: nat, dir: string, byGetter: bool)

  datatype RuntimeConfig = RuntimeConfig(dataDir: string, sessionTTL: int)
  const DEFAULT_DIR := "data"
  const DEFAULT_TTL := 14_400_000_000_000

  /** ConfigureRuntime's defaults. */
  function Completed(cfg: RuntimeConfig): RuntimeConfig {
    RuntimeConfig(
      if cfg.dataDir == "" then DEFAULT_DIR else cfg.dataDir,
      if cfg.sessionTTL <= 0 then DEFAULT_TTL else cfg.sessionTTL)
  }

  /** The package variables. */
  datatype Globals = Globals(config: RuntimeConfig, slot: Option<Service>, nextId: nat)

  const INITIAL := Globals(RuntimeConfig(DEFAULT_DIR, DEFAULT_TTL), None, 0)

  // ----- the lock regions

  /** NewAnnouncementService(dataDir()). */
  function NewService(g: Globals, byGetter: bool): (Globals, Service) {
    (g.(nextId := g.nextId + 1), Service(g.nextId, g.config.dataDir, byGetter))
  }

  /** Under the write lock: install the candidate only if the slot is still empty. */
  function InstallIfEmpty(g: Globals, candidate: Service): Globals {
    if g.slot == None then g.(slot := Some(candidate)) else g
  }

  /** The program text: each lock region is one method, and callers compose them. */
  class Runtime {
    var runtimeConfig: RuntimeConfig
    var announcementService: Option<Service>
    var nextId: nat

    function View(): Globals
      reads this
    {
      Globals(runtimeConfig, announcementService, nextId)
    }

    constructor ()
      ensures View() == INITIAL
      ensures runtimeConfig == RuntimeConfig("data", 4 * 60 * 60 * 1_000_000_000) && announcementService == None
    {
      runtimeConfig := RuntimeConfig(DEFAULT_DIR, DEFAULT_TTL);
      announcementService := None;
      nextId := 0;
    }

    method NewAnnouncementService(byGetter: bool) returns (svc: Service)
      modifies `nextId
      ensures (View(), svc) == NewService(old(View()), byGetter)
      ensures svc == Service(old(nextId), runtimeConfig.dataDir, byGetter) && nextId == old(nextId) + 1
    {
      svc := Service(nextId, runtimeConfig.dataDir, byGetter);
      nextId := nextId + 1;
    }

    method InstallCandidate(candidate: Service) returns (svc: Service)
      modifies `announcementService
      ensures View() == InstallIfEmpty(old(View()), candidate)
      ensures announcementService == Some(svc)
      ensures svc == if old(announcementService) == None then candidate else old(announcementService).value
    {
      if announcementService == None {
        announcementService := Some(candidate);
      }
      svc := announcementService.value;
    }

    /** A getter that nobody interrupts. */
    method CurrentAnnouncementService() returns (svc: Service)
      modifies this
      ensures announcementService == Some(svc) && runtimeConfig == old(runtimeConfig)
      ensures old(announcementService) != None ==> View() == old(View())
      ensures old(announcementService) == None ==> (View().(slot := None), svc) == NewService(old(View()), true)
    {
      if announcementService != None { return announcementService.value; }
      var candidate := NewAnnouncementService(true);
      svc := InstallCandidate(candidate);
    }

    method InitAnnouncement()
      modifies this
      ensures var (g, svc) := NewService(old(View()), false); View() == g.(slot := Some(svc))
      ensures announcementService == Some(Service(old(nextId), runtimeConfig.dataDir, false))
    {
      var svc := NewAnnouncementService(false);
      announcementService := Some(svc);
    }

    method ConfigureRuntime(cfg: RuntimeConfig)
      modifies this
      ensures var (g, svc) := NewService(old(View()).(config := Completed(cfg)), false); View() == g.(slot := Some(svc))
      ensures runtimeConfig.dataDir == if cfg.dataDir != "" then cfg.dataDir else "data"
      ensures runtimeConfig.sessionTTL == if cfg.sessionTTL > 0 then cfg.sessionTTL else 4 * 60 * 60 * 1_000_000_000
      ensures announcementService == Some(Service(old(nextId), runtimeConfig.dataDir, false))
    {
      var c := cfg;
      if c.dataDir == "" {
        c := c.(dataDir := DEFAULT_DIR);
      }
      if c.sessionTTL <= 0 {
        c := c.(sessionTTL := DEFAULT_TTL);
      }
      runtimeConfig := c;
      InitAnnouncement();
    }
  }

  // ----- interleavings

  /** Where a getter stands between its lock regions. */
  datatype Getter = Idle | SawEmpty | HasCandidate(candidate: Service) | Returned(svc: Service)

  /** What the one configuring thread still has to do. */
  datatype Task = SetConfig(cfg: RuntimeConfig) | Init
  datatype Setup = Setup(todo: seq<Task>, built: Option<Service>)

  /** `installed` lists every service ever put in the slot; `settled` tells that no configuration awaits its Init. */
  datatype State = State(g: Globals, getters: seq<Getter>, setup: Setup, installed: seq<Service>, settled: bool)

  datatype Action =
    | Spawn                // a new getter call begins
    | Look(getter: nat)    // read the slot under the read lock
    | Build(getter: nat)   // read the directory and build a candidate
    | Install(getter: nat) // the write-lock region of a getter
    | Configure            // the configuring thread replaces the configuration
    | BuildInit            // reads the directory and builds a service
    | StoreInit            // and stores it under the write lock

  predicate Enabled(s: State, a: Action) {
    match a
    case Spawn => true
    case Look(i) => i < |s.getters| && s.getters[i] == Idle
    case Build(i) => i < |s.getters| && s.getters[i] == SawEmpty
    case Install(i) => i < |s.getters| && s.getters[i].HasCandidate?
    case Configure => s.setup.built == None && s.setup.todo != [] && s.setup.todo[0].SetConfig?
    case BuildInit => s.setup.built == None && s.setup.todo != [] && s.setup.todo[0].Init?
    case StoreInit => s.setup.built != None
  }

  function Perform(s: State, a: Action): State
    requires Enabled(s, a)
  {
    match a
    case Spawn => s.(getters := s.getters + [Idle])
    case Look(i) =>
      s.(getters := s.getters[i := if s.g.slot == None then SawEmpty else Returned(s.g.slot.value)])
    case Build(i) =>
      var (g, candidate) := NewService(s.g, true);
      s.(g := g, getters := s.getters[i := HasCandidate(candidate)])
    case Install(i) =>
      var g := InstallIfEmpty(s.g, s.getters[i].candidate);
      s.(g := g, getters := s.getters[i := Returned(g.slot.value)],
         installed := if s.g.slot == None then s.installed + [s.getters[i].candidate] else s.installed)
    case Configure =>
      s.(g := s.g.(config := Completed(s.setup.todo[0].cfg)), setup := Setup(s.setup.todo[1..], None), settled := false)
    case BuildInit =>
      var (g, svc) := NewService(s.g, false);
      s.(g := g, setup := Setup(s.setup.todo[1..], Some(svc)))
    case StoreInit =>
      s.(g := s.g.(slot := s.setup.built), setup := Setup(s.setup.todo, None),
         installed := s.installed + [s.setup.built.value], settled := true)
  }

  /** Before anything ran; `todo` is the start-up sequence of the main thread. */
  function Initial(todo: seq<Task>): State {
    State(INITIAL, [], Setup(todo, None), [], false)
  }

  predicate Schedule(s: State, actions: seq<Action>)
    decreases |actions|
  {
    actions == [] || (Enabled(s, actions[0]) && Schedule(Perform(s, actions[0]), actions[1..]))
  }

  function Final(s: State, actions: seq<Action>): State
    requires Schedule(s, actions)
    decreases |actions|
  {
    if actions == [] then s else Final(Perform(s, actions[0]), actions[1..])
  }

  /** Every SetConfig is followed by the Init that ConfigureRuntime ends with. */
  predicate EndsWithInit(todo: seq<Task>) {
    forall i :: 0 <= i < |todo| && todo[i].SetConfig? ==> i + 1 < |todo| && todo[i + 1].Init?
  }

  function LazyOnes(services: seq<Service>): seq<Service> {
    if services == [] then []
    else
      var last := services[|services| - 1];
      LazyOnes(services[..|services| - 1]) + if last.byGetter then [last] else []
  }

  ghost predicate Inv(s: State) {
    // the slot holds the service installed last, and is empty only before the first
    && (s.g.slot == None <==> s.installed == [])
    && (s.installed != [] ==> s.g.slot == Some(s.installed[|s.installed| - 1]))
    // a getter's candidate can only have been installed first
    && (forall i :: 0 < i < |s.installed| ==> !s.installed[i].byGetter)
    && (forall i :: 0 <= i < |s.getters| && s.getters[i].HasCandidate? ==> s.getters[i].candidate.byGetter)
    && (forall i :: 0 <= i < |s.getters| && s.getters[i].Returned? ==> s.getters[i].svc in s.installed)
    // the configuring thread builds from the configuration it set
    && (s.setup.built != None ==> !s.setup.built.value.byGetter && s.setup.built.value.dir == s.g.config.dataDir)
    && (s.settled ==> s.g.slot != None && s.g.slot.value.dir == s.g.config.dataDir && !s.g.slot.value.byGetter)
  }

  lemma StepKeepsInv(s: State, a: Action)
    requires Inv(s) && Enabled(s, a)
    ensures Inv(Perform(s, a))
  {
    var next := Perform(s, a);
    forall i | 0 <= i < |next.getters| && next.getters[i].Returned?
      ensures next.getters[i].svc in next.installed
    {
      if i < |s.getters| && next.getters[i] == s.getters[i] {
        assert s.getters[i].svc in s.installed;
      } else if next.installed != [] {
        assert next.installed[|next.installed| - 1] in next.installed;
      }
    }
  }

  lemma {:induction false} RunKeepsInv(s: State, actions: seq<Action>)
    requires Inv(s) && Schedule(s, actions)
    ensures Inv(Final(s, actions))
    decreases |actions|
  {
    if actions != [] {
      StepKeepsInv(s, actions[0]);
      RunKeepsInv(Perform(s, actions[0]), actions[1..]);
    }
  }

  lemma {:induction false} AtMostOneLazy(services: seq<Service>)
    requires forall i :: 0 < i < |services| ==> !services[i].byGetter
    ensures LazyOnes(services) == if services != [] && services[0].byGetter then [services[0]] else []
    decreases |services|
  {
    if |services| > 1 {
      AtMostOneLazy(services[..|services| - 1]);
    } else if |services| == 1 {
      assert LazyOnes(services[..0]) == [];
    }
  }

  /**
   * In every interleaving of any number of getters with the configuring
   * thread: whatever a getter returns was installed in the slot, and at most
   * one service built by a getter is ever installed.
   */
  lemma GettersReturnInstalled(todo: seq<Task>, actions: seq<Action>)
    requires Schedule(Initial(todo), actions)
    ensures var end := Final(Initial(todo), actions);
      && (forall i :: 0 <= i < |end.getters| && end.getters[i].Returned? ==> end.getters[i].svc in end.installed)
      && |LazyOnes(end.installed)| <= 1
  {
    RunKeepsInv(Initial(todo), actions);
    AtMostOneLazy(Final(Initial(todo), actions).installed);
  }

  // ----- after configuration

  predicate HasReturned(s: State, i: int) {
    0 <= i < |s.getters| && s.getters[i].Returned?
  }

  /** The configuring thread is through. */
  predicate Finished(s: State) {
    s.setup.todo == [] && s.setup.built == None && s.settled
  }

  /** `later` follows the finished `s`: nothing moved but getters, and they can only return the slot's service. */
  ghost predicate Frozen(s: State, later: State) {
    && later.g.(nextId := s.g.nextId) == s.g && later.setup == s.setup
    && later.installed == s.installed && later.settled
    && |s.getters| <= |later.getters|
    && (forall i :: 0 <= i < |later.getters| && later.getters[i].Returned? ==>
          Some(later.getters[i].svc) == s.g.slot || (i < |s.getters| && s.getters[i] == later.getters[i]))
    && (forall i :: 0 <= i < |s.getters| && s.getters[i].Returned? ==> later.getters[i] == s.getters[i])
  }

  lemma {:induction false} FrozenRun(s: State, now: State, actions: seq<Action>)
    requires Finished(s) && s.g.slot != None && Frozen(s, now) && Schedule(now, actions)
    ensures Frozen(s, Final(now, actions))
    decreases |actions|
  {
    if actions != [] {
      assert Frozen(s, Perform(now, actions[0]));
      FrozenRun(s, Perform(now, actions[0]), actions[1..]);
    }
  }

  /**
   * Once configuration is through, the slot holds for ever the configuring
   * thread's service for the configured directory; every getter that had not
   * returned by then, even one carrying a stale candidate, returns that one.
   */
  lemma NoStaleCandidate(todo: seq<Task>, before: seq<Action>, after: seq<Action>)
    requires Schedule(Initial(todo), before) && Finished(Final(Initial(todo), before))
    requires Schedule(Final(Initial(todo), before), after)
    ensures var s := Final(Initial(todo), before);
      var end := Final(s, after);
      && end.g.slot == s.g.slot != None && end.g.config == s.g.config
      && s.g.slot.value.dir == s.g.config.dataDir && !s.g.slot.value.byGetter
      && (forall i :: HasReturned(end, i) && !HasReturned(s, i) ==> end.getters[i].svc == s.g.slot.value)
  {
    var s := Final(Initial(todo), before);
    RunKeepsInv(Initial(todo), before);
    FrozenRun(s, s, after);
  }

  /** The configuration held is the one the configuring thread set last, or the first one before that. */
  ghost predicate ConfigIs(s: State, cfg: RuntimeConfig) {
    if ConfiguresOnce(s.setup.todo, cfg) then s.g.config == INITIAL.config
    else s.g.config == Completed(cfg) && forall i :: 0 <= i < |s.setup.todo| ==> s.setup.todo[i].Init?
  }

  lemma {:induction false} RunKeepsConfig(s: State, actions: seq<Action>, cfg: RuntimeConfig)
    requires ConfigIs(s, cfg) && Schedule(s, actions)
    ensures ConfigIs(Final(s, actions), cfg)
    decreases |actions|
  {
    if actions != [] {
      assert ConfigIs(Perform(s, actions[0]), cfg);
      RunKeepsConfig(Perform(s, actions[0]), actions[1..], cfg);
    }
  }

  /**
   * With the start-up sequence of main, once it is through, the slot's service
   * and every getter that returns from then on have the configured directory.
   */
  lemma SettledOnConfigured(todo: seq<Task>, cfg: RuntimeConfig, before: seq<Action>, after: seq<Action>)
    requires ConfiguresOnce(todo, cfg) && Schedule(Initial(todo), before) && Finished(Final(Initial(todo), before))
    requires Schedule(Final(Initial(todo), before), after)
    ensures var s, dir := Final(Initial(todo), before), if cfg.dataDir != "" then cfg.dataDir else "data";
      var end := Final(s, after);
      && end.g.config.dataDir == dir && end.g.slot != None && end.g.slot.value.dir == dir
      && end.g.config.sessionTTL == (if cfg.sessionTTL > 0 then cfg.sessionTTL else 4 * 60 * 60 * 1_000_000_000)
      && (forall i :: HasReturned(end, i) && !HasReturned(s, i) ==> end.getters[i].svc.dir == dir)
  {
    RunKeepsConfig(Initial(todo), before, cfg);
    NoStaleCandidate(todo, before, after);
  }

  // ----- the start-up sequence

  /** There is still an Init to come unless the slot is settled. */
  ghost predicate Settling(s: State) {
    EndsWithInit(s.setup.todo) && (s.settled || s.setup.built != None || s.setup.todo != [])
  }

  lemma {:induction false} SettlesWhenDone(s: State, actions: seq<Action>)
    requires Settling(s) && Schedule(s, actions)
    ensures Settling(Final(s, actions))
    decreases |actions|
  {
    if actions != [] {
      var next := Perform(s, actions[0]);
      assert Settling(next) by {
        forall i | 0 <= i < |next.setup.todo| && next.setup.todo[i].SetConfig?
          ensures i + 1 < |next.setup.todo| && next.setup.todo[i + 1].Init?
        {
        }
      }
      SettlesWhenDone(next, actions[1..]);
    }
  }

  /** main configures and then initializes once more; any such sequence, once run, has settled the slot. */
  lemma StartupSettles(todo: seq<Task>, actions: seq<Action>)
    requires todo != [] && EndsWithInit(todo) && Schedule(Initial(todo), actions)
    ensures var end := Final(Initial(todo), actions);
      end.setup.todo == [] && end.setup.built == None ==> Finished(end)
  {
    SettlesWhenDone(Initial(todo), actions);
  }

  // ----- getters alone

  /**
   * Without a configuring thread all getters that ever return, in whatever
   * interleaving, return one and the same service.
   */
  lemma GettersAgree(actions: seq<Action>, i: nat, j: nat)
    requires Schedule(Initial([]), actions)
    requires var end := Final(Initial([]), actions);
      i < |end.getters| && j < |end.getters| && end.getters[i].Returned? && end.getters[j].Returned?
    ensures var end := Final(Initial([]), actions); end.getters[i].svc == end.getters[j].svc
  {
    RunKeepsInv(Initial([]), actions);
    OnlyLazy(Initial([]), actions);
  }

  lemma {:induction false} OnlyLazy(s: State, actions: seq<Action>)
    requires Inv(s) && s.setup == Setup([], None) && Schedule(s, actions)
    requires forall x :: x in s.installed ==> x.byGetter
    ensures forall x :: x in Final(s, actions).installed ==> x.byGetter
    decreases |actions|
  {
    if actions != [] {
      StepKeepsInv(s, actions[0]);
      OnlyLazy(Perform(s, actions[0]), actions[1..]);
    }
  }

  // ----- getters during configuration

  /** The start-up sequence of main: one configuration, then any number of inits. */
  predicate ConfiguresOnce(todo: seq<Task>, cfg: RuntimeConfig) {
    todo != [] && todo[0] == SetConfig(cfg) && forall i :: 0 < i < |todo| ==> todo[i].Init?
  }

  predicate ReturnedRight(s: State, dir: string) {
    forall i :: 0 <= i < |s.getters| && s.getters[i].Returned? ==> s.getters[i].svc.dir == dir
  }

  /** Some getter builds its candidate before the first configuration. */
  predicate EarlyBuild(actions: seq<Action>)
    decreases |actions|
  {
    actions != [] && !actions[0].Configure? && (actions[0].Build? || EarlyBuild(actions[1..]))
  }

  /** No directory but `dir` is in use anywhere, nor will one be configured. */
  ghost predicate OnlyDir(s: State, dir: string) {
    && s.g.config.dataDir == dir
    && (s.g.slot != None ==> s.g.slot.value.dir == dir)
    && (s.setup.built != None ==> s.setup.built.value.dir == dir)
    && (forall i :: 0 <= i < |s.getters| && s.getters[i].HasCandidate? ==> s.getters[i].candidate.dir == dir)
    && ReturnedRight(s, dir)
    && (forall i :: 0 <= i < |s.setup.todo| && s.setup.todo[i].SetConfig? ==>
          Completed(s.setup.todo[i].cfg).dataDir == dir)
  }

  lemma {:induction false} OnlyDirRun(s: State, actions: seq<Action>, dir: string)
    requires OnlyDir(s, dir) && Schedule(s, actions)
    ensures OnlyDir(Final(s, actions), dir)
    decreases |actions|
  {
    if actions != [] {
      assert OnlyDir(Perform(s, actions[0]), dir);
      OnlyDirRun(Perform(s, actions[0]), actions[1..], dir);
    }
  }

  /** Nothing was configured or built yet. */
  ghost predicate Unbuilt(s: State, cfg: RuntimeConfig) {
    && ConfiguresOnce(s.setup.todo, cfg) && s.setup.built == None
    && s.g.slot == None && s.g.config == INITIAL.config
    && forall i :: 0 <= i < |s.getters| ==> s.getters[i] == Idle || s.getters[i] == SawEmpty
  }

  lemma {:induction false} LateBuildsRight(s: State, actions: seq<Action>, cfg: RuntimeConfig)
    requires Unbuilt(s, cfg) && Schedule(s, actions) && !EarlyBuild(actions)
    ensures ReturnedRight(Final(s, actions), Completed(cfg).dataDir)
    decreases |actions|
  {
    if actions != [] {
      var next := Perform(s, actions[0]);
      if actions[0].Configure? {
        OnlyDirRun(next, actions[1..], Completed(cfg).dataDir);
      } else {
        LateBuildsRight(next, actions[1..], cfg);
      }
    }
  }

  /**
   * As long as no getter builds its candidate before the configuration is set,
   * every getter that returns, even before the first init, returns a service
   * for the configured directory.
   */
  lemma TimelyGettersRight(todo: seq<Task>, cfg: RuntimeConfig, actions: seq<Action>)
    requires ConfiguresOnce(todo, cfg) && Schedule(Initial(todo), actions) && !EarlyBuild(actions)
    ensures ReturnedRight(Final(Initial(todo), actions), if cfg.dataDir != "" then cfg.dataDir else "data")
  {
    LateBuildsRight(Initial(todo), actions, cfg);
  }

  /** Not configured yet, with nothing but services for the default directory about. */
  ghost predicate Unconfigured(s: State, cfg: RuntimeConfig) {
    && ConfiguresOnce(s.setup.todo, cfg) && s.setup.built == None && s.g.config == INITIAL.config
    && (s.g.slot != None ==> s.g.slot.value.dir == DEFAULT_DIR)
    && (forall i :: 0 <= i < |s.getters| && s.getters[i].HasCandidate? ==> s.getters[i].candidate.dir == DEFAULT_DIR)
    && ReturnedRight(s, DEFAULT_DIR)
  }

  predicate PastBuild(s: State, i: nat) {
    i < |s.getters| && (s.getters[i].HasCandidate? || s.getters[i].Returned?)
  }

  lemma {:induction false} UnconfiguredRun(s: State, actions: seq<Action>, cfg: RuntimeConfig)
    requires Unconfigured(s, cfg) && Schedule(s, actions)
    requires forall i :: 0 <= i < |actions| ==> !actions[i].Configure?
    ensures Unconfigured(Final(s, actions), cfg)
    ensures Unbuilt(s, cfg) && !EarlyBuild(actions) ==> Unbuilt(Final(s, actions), cfg)
    ensures EarlyBuild(actions) || (exists i: nat :: PastBuild(s, i)) ==>
      exists i: nat :: PastBuild(Final(s, actions), i)
    decreases |actions|
  {
    if actions != [] {
      var next := Perform(s, actions[0]);
      if i: nat :| PastBuild(s, i) {
        assert PastBuild(next, i);
      } else if actions[0].Build? {
        assert PastBuild(next, actions[0].getter);
      }
      UnconfiguredRun(next, actions[1..], cfg);
    }
  }

  /** A getter past its Build is wrong already, or will be as soon as it installs its candidate. */
  lemma PastBuildReturnsDefault(s: State, i: nat, cfg: RuntimeConfig) returns (more: seq<Action>)
    requires Unconfigured(s, cfg) && PastBuild(s, i)
    ensures Schedule(s, more) && !EarlyBuild(more)
    ensures HasReturned(Final(s, more), i) && Final(s, more).getters[i].svc.dir == DEFAULT_DIR
  {
    if s.getters[i].Returned? {
      more := [];
    } else {
      more := [Install(i)];
      Unroll(s, Install(i), []);
    }
  }

  /**
   * And that is exact.  Stop anywhere before the configuration is set: whatever
   * follows, provided nothing more is built early, gives every getter the
   * configured directory, exactly when nothing was built so far, or the
   * configured directory is the default one.
   */
  lemma GettersRightIff(todo: seq<Task>, cfg: RuntimeConfig, actions: seq<Action>)
    requires ConfiguresOnce(todo, cfg) && Schedule(Initial(todo), actions)
    requires forall i :: 0 <= i < |actions| ==> !actions[i].Configure?
    ensures var s := Final(Initial(todo), actions);
      var dir := if cfg.dataDir != "" then cfg.dataDir else "data";
      (forall more :: Schedule(s, more) && !EarlyBuild(more) ==> ReturnedRight(Final(s, more), dir))
        <==> !EarlyBuild(actions) || dir == "data"
  {
    var s, dir := Final(Initial(todo), actions), Completed(cfg).dataDir;
    UnconfiguredRun(Initial(todo), actions, cfg);
    if dir == DEFAULT_DIR {
      forall more | Schedule(s, more)
        ensures ReturnedRight(Final(s, more), dir)
      {
        OnlyDirRun(s, more, dir);
      }
    } else if EarlyBuild(actions) {
      var i: nat :| PastBuild(s, i);
      var more := PastBuildReturnsDefault(s, i, cfg);
      assert !ReturnedRight(Final(s, more), dir);
    } else {
      forall more | Schedule(s, more) && !EarlyBuild(more)
        ensures ReturnedRight(Final(s, more), dir)
      {
        LateBuildsRight(s, more, cfg);
      }
    }
  }

  /** A getter that has just built its candidate when the configuration is still the default one. */
  lemma EarlyBuildGoesWrong(cfg: RuntimeConfig)
    requires cfg.dataDir != "" && cfg.dataDir != "data"
    ensures var todo, actions := [SetConfig(cfg), Init], [Spawn, Look(0), Build(0)];
      && Schedule(Initial(todo), actions)
      && var s := Final(Initial(todo), actions);
      && Schedule(s, [Install(0)])
      && !ReturnedRight(Final(s, [Install(0)]), cfg.dataDir)
  {
    var s0 := Initial([SetConfig(cfg), Init]);
    var s1 := Perform(s0, Spawn);
    var s2 := Perform(s1, Look(0));
    var s3 := Perform(s2, Build(0));
    assert Final(s3, []) == s3;
    Unroll(s2, Build(0), []);
    Unroll(s1, Look(0), [Build(0)]);
    Unroll(s0, Spawn, [Look(0), Build(0)]);
    Unroll(s3, Install(0), []);
    assert Final(s3, [Install(0)]).getters[0].svc.dir == DEFAULT_DIR;
  }

  lemma Unroll(s: State, a: Action, rest: seq<Action>)
    requires Enabled(s, a) && Schedule(Perform(s, a), rest)
    ensures Schedule(s, [a] + rest) && Final(s, [a] + rest) == Final(Perform(s, a), rest)
  {
    assert ([a] + rest)[1..] == rest;
  }
}
