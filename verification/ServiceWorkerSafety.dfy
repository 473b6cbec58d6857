/** What holds of the service worker's caches in every reachable state, whatever the
    interleaving of its handlers. */
module ServiceWorkerSafety {
  import opened Wrappers
  import opened ServiceWorker

  // ---------- What the caches hold ----------

  ghost predicate EntryServed(e: Entry, served: set<(Url, Response)>) {
    (e.key, e.response) in served && PublicResponse(e.response)
  }

  /** A genuine shell one of whose references is written as a static asset and resolves to `u`. */
  ghost predicate Warms(shell: Response, u: Url) {
    IsAppShell(shell) && exists t :: t in shell.links && IsStatic(t) && shell.links[t] == u
  }

  /** A URL under /static/, or one that an asset reference of a shell served so far resolves to. */
  ghost predicate Allowed(u: Url, served: set<(Url, Response)>) {
    IsStatic(u) || exists shell :: (INDEX, shell) in served && Warms(shell, u)
  }

  ghost predicate StaticEntryOk(e: Entry, served: set<(Url, Response)>) {
    Allowed(e.key, served) && EntryServed(e, served)
  }

  ghost predicate ShellEntryOk(e: Entry, served: set<(Url, Response)>) {
    e.key in APP_SHELL && EntryServed(e, served) && (e.key == INDEX ==> IsAppShell(e.response))
  }

  ghost predicate CachesOk(statics: Cache, shell: Cache, served: set<(Url, Response)>) {
    && DistinctKeys(statics) && DistinctKeys(shell)
    && (forall e :: e in statics ==> StaticEntryOk(e, served))
    && (forall e :: e in shell ==> ShellEntryOk(e, served))
  }

  ghost predicate WarmJobOk(job: WarmJob, served: set<(Url, Response)>) {
    Allowed(job.url, served) && (job.WarmPut? ==> StaticEntryOk(Entry(job.url, job.response), served))
  }

  ghost predicate AssetJobOk(u: Url, job: AssetJob, served: set<(Url, Response)>) {
    job.AssetPut? ==> EntryServed(Entry(u, job.response), served)
  }

  /** What a handler between two awaits is known to carry. */
  ghost predicate TaskOk(task: Task, served: set<(Url, Response)>) {
    match task
    case StaticMatch(u) => IsStatic(u)
    case StaticFetch(u) => IsStatic(u)
    case StaticPut(u, r) => StaticEntryOk(Entry(u, r), served)
    case StaticTrim(u, r) => (u, r) in served
    case StaticDelete(_, u, r) => (u, r) in served
    case PublicMatch(u) => u in PUBLIC_ASSETS
    case PublicFetch(u) => u in PUBLIC_ASSETS
    case PublicPut(u, r) => u in PUBLIC_ASSETS && EntryServed(Entry(u, r), served)
    case InstallPut(r) => ShellEntryOk(Entry(INDEX, r), served)
    case InstallWarm(jobs) => forall t :: t in jobs ==> WarmJobOk(jobs[t], served)
    case InstallAssets(assets) => forall u :: u in assets ==> u in PUBLIC_ASSETS && AssetJobOk(u, assets[u], served)
    case ActivateDelete(names) =>
      forall n :: n in names ==> StartsWith(n, CACHE_PREFIX) && n !in {SHELL_CACHE, STATIC_CACHE}
    case Answered(u, r) => (u, r) in served
    case AnsweredShell(r) => IsAppShell(r) && (INDEX, r) in served
    case _ => true
  }

  ghost predicate ContentsOk(w: World) {
    CachesOk(w.statics, w.shell, w.served) && forall id :: id in w.tasks ==> TaskOk(w.tasks[id], w.served)
  }

  lemma TaskStaysOk(task: Task, served: set<(Url, Response)>, more: set<(Url, Response)>)
    requires TaskOk(task, served) && served <= more
    ensures TaskOk(task, more)
  {
  }

  lemma PutStatic(w: World, u: Url, r: Response)
    requires ContentsOk(w) && StaticEntryOk(Entry(u, r), w.served)
    ensures CachesOk(Put(w.statics, u, r), w.shell, w.served)
  {
    PutKeepsDistinct(w.statics, u, r);
  }

  lemma PutShell(w: World, u: Url, r: Response)
    requires ContentsOk(w) && ShellEntryOk(Entry(u, r), w.served)
    ensures CachesOk(w.statics, Put(w.shell, u, r), w.served)
  {
    PutKeepsDistinct(w.shell, u, r);
  }

  lemma DeleteStatic(w: World, u: Url)
    requires ContentsOk(w)
    ensures CachesOk(Delete(w.statics, u), w.shell, w.served)
  {
    DeleteKeepsDistinct(w.statics, u);
  }

  ghost predicate EffectOk(w: World, f: Effect) {
    CachesOk(f.statics, f.shell, f.served) && TaskOk(f.task, f.served) && w.served <= f.served
  }

  lemma ServeMore(w: World, more: set<(Url, Response)>)
    requires ContentsOk(w) && w.served <= more
    ensures CachesOk(w.statics, w.shell, more)
  {
  }

  lemma StaticStepOk(w: World, task: Task, input: Input)
    requires ContentsOk(w) && TaskOk(task, w.served)
    requires task.StaticMatch? || task.StaticFetch? || task.StaticPut? || task.StaticTrim? || task.StaticDelete?
    ensures EffectOk(w, StepTask(w, task, input))
  {
    hide Put, Delete, DistinctKeys;
    match task
    case StaticMatch(u) =>
    case StaticFetch(u) => ServeMore(w, StepTask(w, task, input).served);
    case StaticPut(u, r) => PutStatic(w, u, r);
    case StaticTrim(u, r) =>
    case StaticDelete(doomed, u, r) => DeleteStatic(w, input.which);
  }

  lemma PublicStepOk(w: World, task: Task, input: Input)
    requires ContentsOk(w) && TaskOk(task, w.served)
    requires task.PublicMatch? || task.PublicFetch? || task.PublicPut? || task.NavigateFetch? || task.NavigateMatch?
    ensures EffectOk(w, StepTask(w, task, input))
  {
    hide Put, Delete, DistinctKeys, Doomed;
    match task
    case PublicMatch(u) =>
    case PublicFetch(u) => ServeMore(w, StepTask(w, task, input).served);
    case PublicPut(u, r) => PutShell(w, u, r);
    case NavigateFetch(u) => ServeMore(w, StepTask(w, task, input).served);
    case NavigateMatch(u) =>
  }

  lemma WarmStepOk(w: World, jobs: map<string, WarmJob>, t: string, input: Input)
    requires ContentsOk(w) && TaskOk(InstallWarm(jobs), w.served) && t in jobs
    ensures EffectOk(w, StepWarm(w, jobs, t, input))
  {
    hide Put, Delete, DistinctKeys, Match, Allowed;
    var f := StepWarm(w, jobs, t, input);
    ServeMore(w, f.served);
    if jobs[t].WarmPut? && input.stored {
      PutStatic(w, jobs[t].url, jobs[t].response);
    }
    TaskStaysOk(InstallWarm(jobs), w.served, f.served);
  }

  lemma AssetStepOk(w: World, assets: map<Url, AssetJob>, u: Url, input: Input)
    requires ContentsOk(w) && TaskOk(InstallAssets(assets), w.served) && u in assets
    ensures EffectOk(w, StepAsset(w, assets, u, input))
  {
    var f := StepAsset(w, assets, u, input);
    ServeMore(w, f.served);
    if assets[u].AssetPut? && input.stored {
      PutShell(w, u, assets[u].response);
    }
    TaskStaysOk(InstallAssets(assets), w.served, f.served);
  }

  lemma InstallStepOk(w: World, task: Task, input: Input)
    requires ContentsOk(w) && TaskOk(task, w.served)
    requires task.InstallFetch? || task.InstallPut? || task.InstallWarm? || task.InstallTrim?
          || task.InstallDelete? || task.InstallAssets?
    ensures EffectOk(w, StepTask(w, task, input))
  {
    hide StepWarm, StepAsset, CachesOk, Put, Delete, Doomed;
    match task
    case InstallFetch => ServeMore(w, StepTask(w, task, input).served);
    case InstallPut(r) => PutShell(w, INDEX, r);
    case InstallWarm(jobs) => if input.which in jobs { WarmStepOk(w, jobs, input.which, input); }
    case InstallTrim(stored) =>
    case InstallDelete(doomed) => DeleteStatic(w, input.which);
    case InstallAssets(assets) => if input.which in assets { AssetStepOk(w, assets, input.which, input); }
  }

  lemma StepOk(w: World, task: Task, input: Input)
    requires ContentsOk(w) && TaskOk(task, w.served)
    ensures EffectOk(w, StepTask(w, task, input))
  {
    match task
    case StaticMatch(_) | StaticFetch(_) | StaticPut(_, _) | StaticTrim(_, _) | StaticDelete(_, _, _) =>
      StaticStepOk(w, task, input);
    case PublicMatch(_) | PublicFetch(_) | PublicPut(_, _) | NavigateFetch(_) | NavigateMatch(_) =>
      PublicStepOk(w, task, input);
    case InstallFetch | InstallPut(_) | InstallWarm(_) | InstallTrim(_) | InstallDelete(_) | InstallAssets(_) =>
      InstallStepOk(w, task, input);
    case _ =>
  }

  lemma UpdateKeepsContents(w: World, id: nat, f: Effect)
    requires ContentsOk(w) && id in w.tasks && EffectOk(w, f)
    ensures ContentsOk(Updated(w, id, f)) && w.served <= Updated(w, id, f).served
  {
    forall other | other in w.tasks ensures TaskOk(w.tasks[other], f.served) {
      TaskStaysOk(w.tasks[other], w.served, f.served);
    }
  }

  lemma BeginKeepsContents(w: World, id: nat, task: Task, opens: set<string>)
    requires ContentsOk(w) && TaskOk(task, w.served)
    ensures ContentsOk(Begin(w, id, task, opens)) && w.served == Begin(w, id, task, opens).served
  {
  }

  lemma FetchKeepsContents(w: World, id: nat, q: Request)
    requires ContentsOk(w)
    ensures ContentsOk(Apply(w, Fetch(id, q))) && w.served == Apply(w, Fetch(id, q)).served
  {
    match Dispatch(q)
    case ToNetwork =>
    case Navigation => BeginKeepsContents(w, id, NavigateFetch(q.path), {SHELL_CACHE});
    case StaticAsset => BeginKeepsContents(w, id, StaticMatch(q.path), {STATIC_CACHE});
    case PublicAsset => BeginKeepsContents(w, id, PublicMatch(q.path), {SHELL_CACHE});
  }

  lemma ApplyKeepsContents(w: World, e: Event)
    requires ContentsOk(w)
    ensures ContentsOk(Apply(w, e)) && w.served <= Apply(w, e).served
  {
    hide StepTask, Updated, EffectOk;
    match e
    case Step(id, input) =>
      if id in w.tasks {
        StepOk(w, w.tasks[id], input);
        UpdateKeepsContents(w, id, StepTask(w, w.tasks[id], input));
      }
    case Fetch(id, q) => FetchKeepsContents(w, id, q);
    case Install(id) => BeginKeepsContents(w, id, InstallFetch, {SHELL_CACHE});
    case Activate(id) => BeginKeepsContents(w, id, ActivateList, {});
    case Stop(id) =>
  }

  /** In every reachable state: a static-cache key lies under /static/ or is what an asset reference
      of a served shell resolves to, shell-cache keys lie in the application shell, each stored
      response is a public one the origin gave for that very URL, and the stored /index.html is a
      genuine application shell. */
  lemma {:induction false} ContentsAlwaysOk(names: set<string>, events: seq<Event>)
    ensures ContentsOk(Run(names, events))
  {
    if events != [] {
      ContentsAlwaysOk(names, events[..|events| - 1]);
      ApplyKeepsContents(Run(names, events[..|events| - 1]), events[|events| - 1]);
    }
  }

  // ---------- Consequences ----------

  /** The first letters tell a private path. */
  lemma PrivateLetters(path: string)
    requires IsPrivatePath(path)
    ensures |path| > 3
    ensures (path[1] == 'a' && path[2] == 'p' && path[3] == 'i') || (path[1] == 'm' && path[2] == 'c')
  {
    if path != "/api" && path != "/mcp" {
      var prefix := if StartsWith(path, "/api/") then "/api/" else "/mcp/";
      assert prefix <= path;
      assert path[1] == prefix[1] && path[2] == prefix[2] && path[3] == prefix[3];
    }
  }

  lemma ShellLetters(u: Url)
    requires u in APP_SHELL
    ensures |u| > 3 && !(u[1] == 'a' && u[2] == 'p' && u[3] == 'i') && !(u[1] == 'm' && u[2] == 'c')
  {
  }

  lemma CacheableIsNotPrivate(u: Url)
    requires IsStatic(u) || u in APP_SHELL
    ensures !IsPrivatePath(PathOf(u))
  {
    hide PathOf, IsPrivatePath;
    if IsPrivatePath(PathOf(u)) {
      PrivateLetters(PathOf(u));
      if u in APP_SHELL { ShellLetters(u); }
    }
  }

  /** Nothing outside /static/ and the application shell is cached but what a served shell's asset
      reference resolves to. */
  lemma OnlyWarmedIsOutside(names: set<string>, events: seq<Event>, u: Url)
    requires !IsStatic(u) && u !in APP_SHELL
    requires Has(Run(names, events).statics, u) || Has(Run(names, events).shell, u)
    ensures exists shell :: (INDEX, shell) in Run(names, events).served && Warms(shell, u)
  {
    ContentsAlwaysOk(names, events);
    CachedKeys(Run(names, events), u);
  }

  lemma CachedKeys(w: World, u: Url)
    requires ContentsOk(w)
    ensures Has(w.shell, u) ==> u in APP_SHELL
    ensures Has(w.statics, u) ==> Allowed(u, w.served)
  {
    hide Allowed, EntryServed;
    if j :| 0 <= j < |w.shell| && w.shell[j].key == u {
      assert ShellEntryOk(w.shell[j], w.served);
    }
    if i :| 0 <= i < |w.statics| && w.statics[i].key == u {
      assert StaticEntryOk(w.statics[i], w.served);
    }
  }

  /** The static cache keeps to /static/ as long as every asset reference of every served shell
      resolves under it. */
  lemma StaticKeysStayStatic(names: set<string>, events: seq<Event>, u: Url)
    requires forall shell, v :: (INDEX, shell) in Run(names, events).served && Warms(shell, v) ==> IsStatic(v)
    requires Has(Run(names, events).statics, u)
    ensures IsStatic(u)
  {
    ContentsAlwaysOk(names, events);
    CachedKeys(Run(names, events), u);
  }

  /** No response for an API or MCP path, with or without a query, is ever in either cache, as long
      as no served shell has a static asset reference that resolves to it. */
  lemma PrivateDataIsNeverCached(names: set<string>, events: seq<Event>, u: Url)
    requires IsPrivatePath(PathOf(u))
    requires forall shell :: (INDEX, shell) in Run(names, events).served ==> !Warms(shell, u)
    ensures !Has(Run(names, events).statics, u) && !Has(Run(names, events).shell, u)
  {
    if IsStatic(u) || u in APP_SHELL {
      CacheableIsNotPrivate(u);
    } else if Has(Run(names, events).statics, u) || Has(Run(names, events).shell, u) {
      OnlyWarmedIsOutside(names, events, u);
    }
  }

  // ---------- The one way out of /static/ ----------

  /** The only genuine shell the origin gave. */
  ghost predicate OnlyShell(w: World, shell: Response) {
    forall r :: (INDEX, r) in w.served && IsAppShell(r) ==> r == shell
  }

  /** An install that warms one reference and is given the shell itself for it. */
  ghost function WarmRun(shell: Response, t: string): seq<Event> {
    [Install(0), Step(0, Input(Some(shell), true, t)), Step(0, Input(None, true, t)), Step(0, Input(None, true, t)),
     Step(0, Input(Some(shell), true, t)), Step(0, Input(None, true, t))]
  }

  lemma RunOneMore(names: set<string>, events: seq<Event>, k: nat)
    requires k < |events|
    ensures Run(names, events[..k + 1]) == Apply(Run(names, events[..k]), events[k])
  {
    assert events[..k + 1][..k] == events[..k];
  }

  /** A world with one handler. */
  ghost function Solo(
    statics: Cache, shell: Cache, names: set<string>, served: set<(Url, Response)>, task: Task): World
  {
    World(statics, shell, names, served, map[0 := task], {})
  }

  lemma SoloStep(w: World, task: Task, input: Input, f: Effect)
    requires w == Solo(w.statics, w.shell, w.names, w.served, task) && f == StepTask(w, task, input)
    ensures Apply(w, Step(0, input)) == Solo(f.statics, f.shell, f.names, f.served, f.task)
  {
    hide StepTask;
    assert map[0 := task][0 := f.task] == map[0 := f.task];
  }

  lemma InstallReachesPut(names: set<string>, shell: Response, t: string)
    requires IsAppShell(shell)
    ensures Run(names, WarmRun(shell, t)[..2])
         == Solo([], [], names + {SHELL_CACHE}, {(INDEX, shell)}, InstallPut(shell))
  {
    hide IsAppShell;
    var events := WarmRun(shell, t);
    RunOneMore(names, events, 0);
    RunOneMore(names, events, 1);
    var w1 := Run(names, events[..1]);
    assert w1 == Solo([], [], names + {SHELL_CACHE}, {}, InstallFetch) by {
      assert events[..0] == [];
    }
    SoloStep(w1, InstallFetch, events[1].input, StepTask(w1, InstallFetch, events[1].input));
  }

  /** The references a shell's install warms, before any has been looked up. */
  ghost function FirstJobs(shell: Response): map<string, WarmJob> {
    map t | t in shell.links && IsStatic(t) :: WarmMatch(shell.links[t])
  }

  lemma PutStartsWarming(w: World, shell: Response, input: Input, t: string)
    requires t in shell.links && IsStatic(t) && input.stored
    ensures var f := StepTask(w, InstallPut(shell), input);
            f.task == InstallWarm(FirstJobs(shell)) && f.statics == w.statics && f.served == w.served
  {
    var texts := set x | x in shell.links && IsStatic(x);
    assert t in texts;
    assert (map x | x in texts :: WarmMatch(shell.links[x])) == FirstJobs(shell);
  }

  lemma InstallReachesWarming(names: set<string>, shell: Response, t: string) returns (w: World)
    requires IsAppShell(shell) && t in shell.links && IsStatic(t)
    ensures w == Run(names, WarmRun(shell, t)[..3])
    ensures w == Solo([], w.shell, w.names, {(INDEX, shell)}, InstallWarm(FirstJobs(shell)))
  {
    hide IsAppShell, FirstJobs, Run, Apply, StepTask;
    var events, w2 := WarmRun(shell, t), Run(names, WarmRun(shell, t)[..2]);
    InstallReachesPut(names, shell, t);
    RunOneMore(names, events, 2);
    PutStartsWarming(w2, shell, events[2].input, t);
    SoloStep(w2, InstallPut(shell), events[2].input, StepTask(w2, InstallPut(shell), events[2].input));
    w := Run(names, events[..3]);
  }

  lemma WarmRunCaches(names: set<string>, shell: Response, t: string)
    requires IsAppShell(shell) && t in shell.links && IsStatic(t) && shell.links[t] != INDEX
    ensures OnlyShell(Run(names, WarmRun(shell, t)), shell)
    ensures Has(Run(names, WarmRun(shell, t)).statics, shell.links[t])
  {
    hide IsAppShell, IsStatic, Run, Apply;
    var events, u := WarmRun(shell, t), shell.links[t];
    var jobs := FirstJobs(shell);
    var w3 := InstallReachesWarming(names, shell, t);
    RunOneMore(names, events, 3);
    RunOneMore(names, events, 4);
    RunOneMore(names, events, 5);
    assert events[..6] == events && t in jobs;
    assert PublicResponse(shell) by { PublicShell(shell); }
    var jobs4 := jobs[t := WarmFetch(u)];
    var jobs5 := jobs4[t := WarmPut(u, shell)];
    var w4, w5, w6 := Run(names, events[..4]), Run(names, events[..5]), Run(names, events);
    WarmStepTaken(w3, jobs, t, events[3].input);
    assert w4 == Solo([], w3.shell, w3.names, {(INDEX, shell)}, InstallWarm(jobs4));
    WarmStepTaken(w4, jobs4, t, events[4].input);
    assert w5 == Solo([], w3.shell, w3.names, {(INDEX, shell), (u, shell)}, InstallWarm(jobs5));
    WarmStepTaken(w5, jobs5, t, events[5].input);
    assert w6.statics == Put([], u, shell) && w6.served == {(INDEX, shell), (u, shell)};
    assert w6.statics[0].key == u;
  }

  lemma PublicShell(shell: Response)
    requires IsAppShell(shell)
    ensures PublicResponse(shell)
  {
  }

  lemma WarmStepTaken(w: World, jobs: map<string, WarmJob>, t: string, input: Input)
    requires w == Solo(w.statics, w.shell, w.names, w.served, InstallWarm(jobs))
    requires input.which == t && t in jobs && !jobs[t].WarmStored? && !jobs[t].WarmSettled?
    ensures var f := StepWarm(w, jobs, t, input);
            Apply(w, Step(0, input)) == Solo(f.statics, f.shell, f.names, f.served, f.task)
  {
    hide StepWarm;
    SoloStep(w, InstallWarm(jobs), input, StepTask(w, InstallWarm(jobs), input));
  }

  /** For each shell an origin may serve, exactly which URLs outside /static/ and the application
      shell, API paths among them, can get into a cache: those its static asset references resolve
      to. The worker tests the reference as written and stores under the resolved URL. */
  lemma CachedOutsideExactly(names: set<string>, shell: Response, u: Url)
    requires IsAppShell(shell) && !IsStatic(u) && u !in APP_SHELL
    ensures Warms(shell, u) <==>
            exists events :: OnlyShell(Run(names, events), shell)
              && (Has(Run(names, events).statics, u) || Has(Run(names, events).shell, u))
  {
    if Warms(shell, u) {
      var t :| t in shell.links && IsStatic(t) && shell.links[t] == u;
      WarmRunCaches(names, shell, t);
    }
    if events :| OnlyShell(Run(names, events), shell)
                 && (Has(Run(names, events).statics, u) || Has(Run(names, events).shell, u)) {
      OnlyWarmedIsOutside(names, events, u);
    }
  }

  // ---------- Freshness, and the caches themselves ----------

  /** The origin gives one public response per URL, as it does for content-hashed assets. */
  ghost predicate Immutable(served: set<(Url, Response)>, u: Url) {
    forall a, b :: (u, a) in served && (u, b) in served && PublicResponse(a) && PublicResponse(b) ==> a == b
  }

  /** For an immutable asset a cache hit is the response the network gives, now or at any later
      point of the run. */
  lemma CacheFirstIsFresh(names: set<string>, events: seq<Event>, later: seq<Event>, u: Url, r: Response)
    ensures var served, hit := Run(names, events + later).served, Match(Run(names, events).statics, u);
            Immutable(served, u) && (u, r) in served && PublicResponse(r) ==> hit == None || hit == Some(r)
  {
    hide StepTask, Apply, Allowed, PublicResponse;
    ContentsAlwaysOk(names, events);
    ServedOnlyGrows(names, events, later);
    var w := Run(names, events);
    if Match(w.statics, u).Some? {
      assert StaticEntryOk(Entry(u, Match(w.statics, u).value), w.served);
    }
  }

  lemma {:induction false} ServedOnlyGrows(names: set<string>, events: seq<Event>, later: seq<Event>)
    ensures Run(names, events).served <= Run(names, events + later).served
  {
    if later == [] {
      assert events + later == events;
    } else {
      var last := |later| - 1;
      ServedOnlyGrows(names, events, later[..last]);
      assert (events + later)[..|events + later| - 1] == events + later[..last];
      ContentsAlwaysOk(names, events + later[..last]);
      ApplyKeepsContents(Run(names, events + later[..last]), later[last]);
    }
  }

  lemma StepKeepsNames(w: World, task: Task, input: Input, n: string)
    requires TaskOk(task, w.served) && n in w.names
    requires n in {SHELL_CACHE, STATIC_CACHE} || !StartsWith(n, CACHE_PREFIX)
    ensures n in StepTask(w, task, input).names
  {
    match task
    case ActivateDelete(names) => assert n !in names;
    case InstallPut(_) =>
    case InstallWarm(_) =>
    case InstallAssets(_) =>
    case _ =>
  }

  lemma ApplyKeepsNames(w: World, e: Event, n: string)
    requires ContentsOk(w) && n in w.names
    requires n in {SHELL_CACHE, STATIC_CACHE} || !StartsWith(n, CACHE_PREFIX)
    ensures n in Apply(w, e).names
  {
    if e.Step? && e.id in w.tasks {
      StepKeepsNames(w, w.tasks[e.id], e.input, n);
    }
  }

  /** No activation, whenever it runs, deletes a cache of the current version or one that is not
      the application's. */
  lemma {:induction false} CurrentAndForeignCachesSurvive(
    names: set<string>, events: seq<Event>, later: seq<Event>, n: string)
    requires n in Run(names, events).names
    requires n in {SHELL_CACHE, STATIC_CACHE} || !StartsWith(n, CACHE_PREFIX)
    ensures n in Run(names, events + later).names
  {
    if later == [] {
      assert events + later == events;
    } else {
      var last := |later| - 1;
      CurrentAndForeignCachesSurvive(names, events, later[..last], n);
      assert (events + later)[..|events + later| - 1] == events + later[..last];
      ContentsAlwaysOk(names, events + later[..last]);
      ApplyKeepsNames(Run(names, events + later[..last]), later[last], n);
    }
  }

  // ---------- The size of the static cache ----------

  /** All keys some handler still has to trim for or is about to delete. */
  ghost function OwedByAll(tasks: map<nat, Task>): set<Url> {
    set id, u | id in tasks && u in Owed(tasks[id]) :: u
  }

  /** At most the limit of keys is in nobody's care. */
  ghost predicate Bounded(w: World) {
    |KeySet(w.statics) - OwedByAll(w.tasks) - w.abandoned| <= MAX_STATIC_ENTRIES
  }

  /** One step either takes a fresh snapshot, or adds no key it does not answer for. */
  ghost predicate Careful(w: World, task: Task, f: Effect) {
    if f.trimmed then |KeySet(f.statics) - Owed(f.task)| <= MAX_STATIC_ENTRIES
    else KeySet(f.statics) - Owed(f.task) <= KeySet(w.statics) - Owed(task)
  }

  lemma PutKeys(c: Cache, u: Url, r: Response)
    ensures KeySet(Put(c, u, r)) == KeySet(c) + {u}
  {
    forall k | k in KeySet(c) + {u} ensures k in KeySet(Put(c, u, r)) {
      if k == u {
        assert Entry(u, r) in Put(c, u, r);
      } else {
        var e :| e in c && e.key == k;
        assert e in Put(c, u, r);
      }
    }
  }

  lemma DeleteKeys(c: Cache, u: Url)
    ensures KeySet(Delete(c, u)) == KeySet(c) - {u}
  {
    forall k | k in KeySet(c) - {u} ensures k in KeySet(Delete(c, u)) {
      var e :| e in c && e.key == k;
      assert e in Delete(c, u);
    }
  }

  lemma WarmOwed(jobs: map<string, WarmJob>, t: string, job: WarmJob)
    requires t in jobs && !jobs[t].WarmStored?
    ensures Owed(InstallWarm(jobs[t := job]))
         == Owed(InstallWarm(jobs)) + if job.WarmStored? then {job.url} else {}
  {
    var before, after := Owed(InstallWarm(jobs)), Owed(InstallWarm(jobs[t := job]));
    forall u | u in before ensures u in after {
      var other :| other in jobs && jobs[other].WarmStored? && jobs[other].url == u;
      assert jobs[t := job][other] == jobs[other];
    }
    if job.WarmStored? {
      assert jobs[t := job][t].url in after;
    }
  }

  lemma WarmStepIsCareful(w: World, jobs: map<string, WarmJob>, t: string, input: Input)
    requires t in jobs
    ensures Careful(w, InstallWarm(jobs), StepWarm(w, jobs, t, input))
  {
    match jobs[t]
    case WarmMatch(u) =>
      WarmOwed(jobs, t, if Match(w.statics, u).Some? then WarmSettled(u) else WarmFetch(u));
    case WarmFetch(u) =>
      WarmOwed(jobs, t, WarmSettled(u));
      if input.network.Some? {
        WarmOwed(jobs, t, WarmPut(u, input.network.value));
      }
    case WarmPut(u, r) =>
      WarmOwed(jobs, t, WarmSettled(u));
      WarmOwed(jobs, t, WarmStored(u));
      PutKeys(w.statics, u, r);
    case _ =>
  }

  lemma StaticPutIsCareful(w: World, u: Url, r: Response, input: Input)
    ensures Careful(w, StaticPut(u, r), StepTask(w, StaticPut(u, r), input))
  {
    PutKeys(w.statics, u, r);
  }

  lemma TrimIsCareful(w: World, task: Task, f: Effect)
    requires f.trimmed && f.statics == w.statics && Owed(f.task) == Doomed(w.statics)
    ensures Careful(w, task, f)
  {
    DoomedLeavesFew(w.statics);
  }

  lemma DeleteIsCareful(w: World, task: Task, f: Effect, u: Url)
    requires !f.trimmed && f.statics == Delete(w.statics, u)
    requires Owed(task) <= Owed(f.task) + {u}
    ensures Careful(w, task, f)
  {
    DeleteKeys(w.statics, u);
  }

  lemma UntouchedIsCareful(w: World, task: Task, f: Effect)
    requires !f.trimmed && f.statics == w.statics && Owed(task) <= Owed(f.task)
    ensures Careful(w, task, f)
  {
  }

  lemma StaticDeleteIsCareful(w: World, task: Task, input: Input)
    requires task.StaticDelete?
    ensures Careful(w, task, StepTask(w, task, input))
  {
    hide Careful, Delete, Doomed;
    if input.which in task.doomed {
      DeleteIsCareful(w, task, StepTask(w, task, input), input.which);
    } else {
      UntouchedIsCareful(w, task, StepTask(w, task, input));
    }
  }

  lemma InstallDeleteIsCareful(w: World, task: Task, input: Input)
    requires task.InstallDelete?
    ensures Careful(w, task, StepTask(w, task, input))
  {
    hide Careful, Delete, Doomed;
    if input.which in task.doomed {
      DeleteIsCareful(w, task, StepTask(w, task, input), input.which);
    } else {
      UntouchedIsCareful(w, task, StepTask(w, task, input));
    }
  }

  lemma InstallWarmIsCareful(w: World, task: Task, input: Input)
    requires task.InstallWarm?
    ensures Careful(w, task, StepTask(w, task, input))
  {
    if WarmSettledAll(task.jobs) || input.which !in task.jobs {
      UntouchedIsCareful(w, task, StepTask(w, task, input));
    } else {
      WarmStepIsCareful(w, task.jobs, input.which, input);
    }
  }

  /** Handlers that never put into the static cache, or are past or before that. */
  lemma OtherStepsAreCareful(w: World, task: Task, input: Input)
    requires !task.StaticPut? && !task.StaticTrim? && !task.StaticDelete?
    requires !task.InstallWarm? && !task.InstallTrim? && !task.InstallDelete?
    ensures Careful(w, task, StepTask(w, task, input))
  {
    hide Careful, Put, Delete, Doomed, Match;
    var f := StepTask(w, task, input);
    assert !f.trimmed && f.statics == w.statics && Owed(task) == {};
    UntouchedIsCareful(w, task, f);
  }

  lemma StepIsCareful(w: World, task: Task, input: Input)
    ensures Careful(w, task, StepTask(w, task, input))
  {
    match task
    case StaticPut(u, r) => StaticPutIsCareful(w, u, r, input);
    case StaticTrim(_, _) => TrimIsCareful(w, task, StepTask(w, task, input));
    case StaticDelete(_, _, _) => StaticDeleteIsCareful(w, task, input);
    case InstallWarm(_) => InstallWarmIsCareful(w, task, input);
    case InstallTrim(_) => TrimIsCareful(w, task, StepTask(w, task, input));
    case InstallDelete(_) => InstallDeleteIsCareful(w, task, input);
    case _ => OtherStepsAreCareful(w, task, input);
  }

  lemma OwedAfter(tasks: map<nat, Task>, id: nat, task: Task)
    requires id in tasks
    ensures OwedByAll(tasks) <= OwedByAll(tasks[id := task]) + Owed(tasks[id])
    ensures Owed(task) <= OwedByAll(tasks[id := task])
  {
    var after := tasks[id := task];
    forall u | u in OwedByAll(tasks) ensures u in OwedByAll(after) + Owed(tasks[id]) {
      var other :| other in tasks && u in Owed(tasks[other]);
      if other != id {
        assert after[other] == tasks[other];
      }
    }
    assert id in after;
  }

  /** Keys outside everybody's care stay few when one handler's duties change and others' do not. */
  lemma BoundCarriesOver(
    keys: set<Url>, newKeys: set<Url>, mine: set<Url>, newMine: set<Url>, all: set<Url>, newAll: set<Url>)
    requires |keys - all| <= MAX_STATIC_ENTRIES
    requires newKeys - newMine <= keys - mine
    requires all <= newAll + mine && newMine <= newAll
    ensures |newKeys - newAll| <= MAX_STATIC_ENTRIES
  {
    forall u | u in newKeys - newAll ensures u in keys - all {
      assert u in newKeys - newMine;
    }
    SubsetSize(newKeys - newAll, keys - all);
  }

  lemma CareIsUnion(w: World)
    ensures KeySet(w.statics) - OwedByAll(w.tasks) - w.abandoned
         == KeySet(w.statics) - (OwedByAll(w.tasks) + w.abandoned)
  {
  }

  lemma StepKeepsBound(w: World, id: nat, input: Input)
    requires Bounded(w) && id in w.tasks
    ensures Bounded(Apply(w, Step(id, input)))
  {
    hide StepTask, Bounded, Careful;
    var task := w.tasks[id];
    var f := StepTask(w, task, input);
    StepIsCareful(w, task, input);
    EffectKeepsBound(w, id, f);
  }

  lemma EffectKeepsBound(w: World, id: nat, f: Effect)
    requires Bounded(w) && id in w.tasks && Careful(w, w.tasks[id], f)
    ensures Bounded(Updated(w, id, f))
  {
    var after := Updated(w, id, f);
    var all, newAll := OwedByAll(w.tasks) + w.abandoned, OwedByAll(after.tasks) + after.abandoned;
    CareIsUnion(w);
    CareIsUnion(after);
    OwedAfter(w.tasks, id, f.task);
    if f.trimmed {
      SubsetSize(KeySet(f.statics) - newAll, KeySet(f.statics) - Owed(f.task));
    } else {
      BoundCarriesOver(KeySet(w.statics), KeySet(f.statics), Owed(w.tasks[id]), Owed(f.task), all, newAll);
    }
  }

  lemma StopKeepsBound(w: World, id: nat)
    requires Bounded(w) && id in w.tasks
    ensures Bounded(Apply(w, Stop(id)))
  {
    var after := Apply(w, Stop(id));
    CareIsUnion(w);
    CareIsUnion(after);
    OwedAfter(w.tasks, id, Failed);
    BoundCarriesOver(KeySet(w.statics), KeySet(w.statics), {}, {},
                     OwedByAll(w.tasks) + w.abandoned, OwedByAll(after.tasks) + after.abandoned);
  }

  lemma BeginKeepsBound(w: World, id: nat, task: Task, opens: set<string>)
    requires Bounded(w)
    ensures Bounded(Begin(w, id, task, opens))
  {
    var after := Begin(w, id, task, opens);
    forall u | u in OwedByAll(w.tasks) ensures u in OwedByAll(after.tasks) {
      var other :| other in w.tasks && u in Owed(w.tasks[other]);
      assert other in after.tasks && after.tasks[other] == w.tasks[other];
    }
    CareIsUnion(w);
    CareIsUnion(after);
    BoundCarriesOver(KeySet(w.statics), KeySet(w.statics), {}, {},
                     OwedByAll(w.tasks) + w.abandoned, OwedByAll(after.tasks) + after.abandoned);
  }

  lemma FetchKeepsBound(w: World, id: nat, q: Request)
    requires Bounded(w)
    ensures Bounded(Apply(w, Fetch(id, q)))
  {
    match Dispatch(q)
    case ToNetwork =>
    case Navigation => BeginKeepsBound(w, id, NavigateFetch(q.path), {SHELL_CACHE});
    case StaticAsset => BeginKeepsBound(w, id, StaticMatch(q.path), {STATIC_CACHE});
    case PublicAsset => BeginKeepsBound(w, id, PublicMatch(q.path), {SHELL_CACHE});
  }

  lemma ApplyKeepsBound(w: World, e: Event)
    requires Bounded(w)
    ensures Bounded(Apply(w, e))
  {
    hide StepTask, Bounded, Updated, Begin;
    match e
    case Step(id, input) => if id in w.tasks { StepKeepsBound(w, id, input); }
    case Stop(id) => if id in w.tasks { StopKeepsBound(w, id); }
    case Fetch(id, q) => FetchKeepsBound(w, id, q);
    case Install(id) => BeginKeepsBound(w, id, InstallFetch, {SHELL_CACHE});
    case Activate(id) => BeginKeepsBound(w, id, ActivateList, {});
  }

  lemma {:induction false} AlwaysBounded(names: set<string>, events: seq<Event>)
    ensures Bounded(Run(names, events))
  {
    if events == [] {
      assert KeySet([]) - OwedByAll(map[]) - {} == {};
    } else {
      AlwaysBounded(names, events[..|events| - 1]);
      ApplyKeepsBound(Run(names, events[..|events| - 1]), events[|events| - 1]);
    }
  }

  lemma KeysWithinCare(keys: set<Url>, care: set<Url>)
    requires |keys - care| <= MAX_STATIC_ENTRIES
    ensures |keys| <= MAX_STATIC_ENTRIES + |care|
  {
    assert keys == (keys - care) + (keys * care);
    SubsetSize(keys * care, care);
  }

  /** At any moment of any run the static cache exceeds its limit by no more than the keys that
      trims still have to deal with. */
  lemma StaticCacheSize(names: set<string>, events: seq<Event>)
    ensures var w := Run(names, events);
            |w.statics| <= MAX_STATIC_ENTRIES + |OwedByAll(w.tasks) + w.abandoned|
  {
    var w := Run(names, events);
    AlwaysBounded(names, events);
    ContentsAlwaysOk(names, events);
    DistinctKeysCount(w.statics);
    CareIsUnion(w);
    KeysWithinCare(KeySet(w.statics), OwedByAll(w.tasks) + w.abandoned);
  }

  /** No handler stands between a put and the end of its trim. */
  ghost predicate Quiet(w: World) {
    && (forall id :: id in w.tasks ==> Owed(w.tasks[id]) == {})
    && w.abandoned == {}
  }

  /** Whenever no put-then-trim is in flight, and none has been cut off since the last snapshot,
      the static cache holds at most 96 entries. */
  lemma QuietCacheIsWithinLimit(names: set<string>, events: seq<Event>)
    requires Quiet(Run(names, events))
    ensures |Run(names, events).statics| <= MAX_STATIC_ENTRIES
  {
    var w := Run(names, events);
    StaticCacheSize(names, events);
    assert OwedByAll(w.tasks) + w.abandoned == {};
  }

  lemma {:induction false} NothingAbandoned(names: set<string>, events: seq<Event>)
    requires forall e :: e in events ==> !e.Stop?
    ensures Run(names, events).abandoned == {}
  {
    hide StepTask;
    if events != [] {
      NothingAbandoned(names, events[..|events| - 1]);
      assert events[|events| - 1] in events;
    }
  }

  /** In a run in which no handler is stopped: at most 96 entries whenever no request for a static asset
      stands between its put and the end of its trim, and no install between the start of its warming
      and the end of its trim. */
  lemma AtMost96(names: set<string>, events: seq<Event>)
    requires forall e :: e in events ==> !e.Stop?
    requires forall id :: id in Run(names, events).tasks ==>
               var task := Run(names, events).tasks[id];
               && !task.StaticTrim? && !task.StaticDelete?
               && !task.InstallWarm? && !task.InstallTrim? && !task.InstallDelete?
    ensures |Run(names, events).statics| <= 96
  {
    NothingAbandoned(names, events);
    QuietCacheIsWithinLimit(names, events);
  }

  /** Handlers that were stopped matter only until the next trim takes its snapshot: from then on, as
      long as none is stopped, the same limit holds. */
  lemma AtMost96AfterTrim(names: set<string>, events: seq<Event>, id: nat, input: Input, later: seq<Event>)
    requires id in Run(names, events).tasks
    requires Run(names, events).tasks[id].StaticTrim? || Run(names, events).tasks[id].InstallTrim?
    requires forall e :: e in later ==> !e.Stop?
    requires var tasks := Run(names, events + [Step(id, input)] + later).tasks;
             forall other :: other in tasks ==>
               && !tasks[other].StaticTrim? && !tasks[other].StaticDelete?
               && !tasks[other].InstallWarm? && !tasks[other].InstallTrim? && !tasks[other].InstallDelete?
    ensures |Run(names, events + [Step(id, input)] + later).statics| <= 96
  {
    TrimForgives(names, events, id, input, later);
    QuietCacheIsWithinLimit(names, events + [Step(id, input)] + later);
  }

  lemma {:induction false} TrimForgives(
    names: set<string>, events: seq<Event>, id: nat, input: Input, later: seq<Event>)
    requires id in Run(names, events).tasks
    requires Run(names, events).tasks[id].StaticTrim? || Run(names, events).tasks[id].InstallTrim?
    requires forall e :: e in later ==> !e.Stop?
    ensures Run(names, events + [Step(id, input)] + later).abandoned == {}
  {
    hide Run, Apply;
    var base := events + [Step(id, input)];
    RunLast(names, base + later);
    if later == [] {
      assert base[..|base| - 1] == events && base + later == base;
      SnapshotForgives(Run(names, events), id, input);
    } else {
      var last := |later| - 1;
      assert (base + later)[..|base + later| - 1] == base + later[..last];
      assert later[last] in later;
      TrimForgives(names, events, id, input, later[..last]);
      NoStopNoMore(Run(names, base + later[..last]), later[last]);
    }
  }

  lemma RunLast(names: set<string>, events: seq<Event>)
    requires events != []
    ensures Run(names, events) == Apply(Run(names, events[..|events| - 1]), events[|events| - 1])
  {
    hide Apply;
  }

  lemma SnapshotForgives(w: World, id: nat, input: Input)
    requires id in w.tasks && (w.tasks[id].StaticTrim? || w.tasks[id].InstallTrim?)
    ensures Apply(w, Step(id, input)).abandoned == {}
  {
  }

  lemma NoStopNoMore(w: World, e: Event)
    requires !e.Stop? && w.abandoned == {}
    ensures Apply(w, e).abandoned == {}
  {
    hide StepTask;
  }

  // ---------- What a trim leaves ----------

  /** The entries whose key is not in `gone`, in their order. */
  ghost function Without(c: Cache, gone: set<Url>): Cache {
    if c == [] then [] else (if c[0].key in gone then [] else [c[0]]) + Without(c[1..], gone)
  }

  lemma {:induction false} DeleteFromWithout(c: Cache, gone: set<Url>, u: Url)
    ensures Delete(Without(c, gone), u) == Without(c, gone + {u})
  {
    if c != [] {
      DeleteFromWithout(c[1..], gone, u);
      var rest := Without(c[1..], gone);
      if c[0].key in gone {
        assert Without(c, gone) == rest;
      } else {
        assert Without(c, gone) == [c[0]] + rest;
        assert ([c[0]] + rest)[1..] == rest;
      }
    }
  }

  lemma {:induction false} WithoutAppend(a: Cache, b: Cache, gone: set<Url>)
    ensures Without(a + b, gone) == Without(a, gone) + Without(b, gone)
  {
    if a == [] {
      assert a + b == b;
    } else {
      assert (a + b)[1..] == a[1..] + b;
      WithoutAppend(a[1..], b, gone);
    }
  }

  lemma {:induction false} AllGone(c: Cache, gone: set<Url>)
    requires forall e :: e in c ==> e.key in gone
    ensures Without(c, gone) == []
  {
    if c != [] {
      AllGone(c[1..], gone);
    }
  }

  lemma {:induction false} NoneGone(c: Cache, gone: set<Url>)
    requires forall e :: e in c ==> e.key !in gone
    ensures Without(c, gone) == c
  {
    if c != [] {
      NoneGone(c[1..], gone);
    }
  }

  lemma WithoutPrefix(c: Cache, cut: nat, gone: set<Url>)
    requires cut <= |c|
    requires forall i :: 0 <= i < |c| ==> (c[i].key in gone <==> i < cut)
    ensures Without(c, gone) == c[cut..]
  {
    hide Without;
    assert c == c[..cut] + c[cut..];
    WithoutAppend(c[..cut], c[cut..], gone);
    AllGone(c[..cut], gone);
    NoneGone(c[cut..], gone);
  }

  /** The newest entries, up to the limit. */
  function Newest(c: Cache): Cache {
    c[if |c| <= MAX_STATIC_ENTRIES then 0 else |c| - MAX_STATIC_ENTRIES..]
  }

  lemma WithoutDoomed(c: Cache)
    requires DistinctKeys(c)
    ensures Without(c, Doomed(c)) == Newest(c)
  {
    var cut := if |c| <= MAX_STATIC_ENTRIES then 0 else |c| - MAX_STATIC_ENTRIES;
    forall i | 0 <= i < |c| ensures c[i].key in Doomed(c) <==> i < cut {
      assert i < cut ==> Keys(c)[i] in Doomed(c);
      if c[i].key in Doomed(c) {
        var j :| 0 <= j < cut && Keys(c)[j] == c[i].key;
        assert j == i;
      }
    }
    WithoutPrefix(c, cut, Doomed(c));
  }

  /** The handler is past its puts and about to take the snapshot it trims by. */
  predicate AboutToTrim(task: Task) {
    task.StaticTrim? || task.InstallTrim?
  }

  /** The handler has deleted what its trim decided on. */
  predicate DoneTrimming(task: Task) {
    task.Answered? || task.InstallAssets? || task.Finished?
  }

  /** How far one handler's trim of `start` has come, when no other handler touched the cache. */
  ghost predicate TrimProgress(start: Cache, task: Task, statics: Cache) {
    match task
    case StaticTrim(_, _) => statics == start
    case InstallTrim(_) => statics == start
    case StaticDelete(doomed, _, _) => doomed <= Doomed(start) && statics == Without(start, Doomed(start) - doomed)
    case InstallDelete(doomed) => doomed <= Doomed(start) && statics == Without(start, Doomed(start) - doomed)
    case _ => DoneTrimming(task) && statics == Without(start, Doomed(start))
  }

  lemma TrimStep(start: Cache, w: World, task: Task, input: Input)
    requires TrimProgress(start, task, w.statics)
    ensures TrimProgress(start, StepTask(w, task, input).task, StepTask(w, task, input).statics)
  {
    hide Put, Delete, Doomed, Without, Owed;
    match task
    case StaticTrim(_, _) =>
      NoneGone(start, {});
      assert Doomed(start) - Doomed(start) == {};
    case InstallTrim(_) =>
      NoneGone(start, {});
      assert Doomed(start) - Doomed(start) == {};
    case StaticDelete(doomed, _, _) => OneDelete(start, doomed, input.which);
    case InstallDelete(doomed) => OneDelete(start, doomed, input.which);
    case _ =>
  }

  lemma OneDelete(start: Cache, doomed: set<Url>, u: Url)
    requires doomed <= Doomed(start)
    ensures u in doomed ==>
              Delete(Without(start, Doomed(start) - doomed), u) == Without(start, Doomed(start) - (doomed - {u}))
    ensures doomed == {} ==> Doomed(start) - doomed == Doomed(start)
  {
    if u in doomed {
      DeleteFromWithout(start, Doomed(start) - doomed, u);
      assert Doomed(start) - (doomed - {u}) == Doomed(start) - doomed + {u};
    }
  }

  /** Events that leave one handler running and step no other: requests may arrive and handlers may
      start or be stopped, but none of them takes a step. */
  ghost predicate OnlySteps(events: seq<Event>, id: nat) {
    forall i :: 0 <= i < |events| ==>
      (events[i].Step? ==> events[i].id == id) && (events[i].Stop? ==> events[i].id != id)
  }

  ghost predicate TrimInvariant(start: Cache, w: World, id: nat) {
    id in w.tasks && TrimProgress(start, w.tasks[id], w.statics)
  }

  lemma TrimEvent(start: Cache, w: World, e: Event, id: nat)
    requires TrimInvariant(start, w, id)
    requires (e.Step? ==> e.id == id) && (e.Stop? ==> e.id != id)
    ensures TrimInvariant(start, Apply(w, e), id)
  {
    hide StepTask, TrimProgress, Doomed;
    if e.Step? {
      TrimStep(start, w, w.tasks[id], e.input);
    }
  }

  lemma {:induction false} TrimRuns(names: set<string>, events: seq<Event>, steps: seq<Event>, id: nat)
    requires id in Run(names, events).tasks && AboutToTrim(Run(names, events).tasks[id])
    requires OnlySteps(steps, id)
    ensures TrimInvariant(Run(names, events).statics, Run(names, events + steps), id)
  {
    hide Apply, Doomed, Without;
    if steps == [] {
      assert events + steps == events;
    } else {
      var last := |steps| - 1;
      assert (events + steps)[..|events + steps| - 1] == events + steps[..last];
      TrimRuns(names, events, steps[..last], id);
      TrimEvent(Run(names, events).statics, Run(names, events + steps[..last]), steps[last], id);
    }
  }

  /** A trim that no other handler's step interferes with: whatever order its deletes complete in,
      when they are done the static cache holds exactly the newest entries it held when the trim
      began, up to the limit and in their order. */
  lemma TrimKeepsNewest(names: set<string>, events: seq<Event>, steps: seq<Event>, id: nat)
    requires id in Run(names, events).tasks && AboutToTrim(Run(names, events).tasks[id])
    requires OnlySteps(steps, id)
    ensures id in Run(names, events + steps).tasks
    ensures DoneTrimming(Run(names, events + steps).tasks[id]) ==>
              Run(names, events + steps).statics == Newest(Run(names, events).statics)
  {
    hide Apply, Doomed, Without, Newest;
    TrimRuns(names, events, steps, id);
    ContentsAlwaysOk(names, events);
    WithoutDoomed(Run(names, events).statics);
  }

  // ---------- The offline shell ----------

  /** Nothing ever removes a key from the shell cache. */
  lemma StepKeepsShell(w: World, task: Task, input: Input, u: Url)
    requires u in KeySet(w.shell)
    ensures u in KeySet(StepTask(w, task, input).shell)
  {
    hide KeySet, Put, Delete, Match;
    match task
    case PublicPut(v, r) => PutKeys(w.shell, v, r);
    case InstallPut(r) => PutKeys(w.shell, INDEX, r);
    case InstallAssets(assets) =>
      if input.which in assets && assets[input.which].AssetPut? {
        PutKeys(w.shell, input.which, assets[input.which].response);
      }
    case _ =>
  }

  lemma {:induction false} ShellNeverShrinks(names: set<string>, events: seq<Event>, later: seq<Event>, u: Url)
    requires u in KeySet(Run(names, events).shell)
    ensures u in KeySet(Run(names, events + later).shell)
  {
    if later == [] {
      assert events + later == events;
    } else {
      var last := |later| - 1;
      ShellNeverShrinks(names, events, later[..last], u);
      assert (events + later)[..|events + later| - 1] == events + later[..last];
      var w, e := Run(names, events + later[..last]), later[last];
      if e.Step? && e.id in w.tasks {
        StepKeepsShell(w, w.tasks[e.id], e.input, u);
      }
    }
  }

  /** While the shell cache holds a shell, no step falls back to the bare offline page. */
  lemma StepIsNotOffline(w: World, task: Task, input: Input)
    requires INDEX in KeySet(w.shell)
    ensures StepTask(w, task, input).task.AnsweredOffline? ==> task.AnsweredOffline?
  {
    hide Put, Delete, Doomed, Owed;
    var e :| e in w.shell && e.key == INDEX;
    var i :| 0 <= i < |w.shell| && w.shell[i] == e;
    assert Has(w.shell, INDEX);
  }

  lemma ApplyIsNotOffline(w: World, e: Event, id: nat)
    requires id in Apply(w, e).tasks && INDEX in KeySet(w.shell)
    ensures Apply(w, e).tasks[id].AnsweredOffline? ==> id in w.tasks && w.tasks[id].AnsweredOffline?
  {
    hide StepTask;
    if e.Step? && e.id == id && id in w.tasks {
      StepIsNotOffline(w, w.tasks[id], e.input);
    }
  }

  lemma TaskIsOk(w: World, id: nat)
    requires ContentsOk(w) && id in w.tasks
    ensures TaskOk(w.tasks[id], w.served)
  {
  }

  /** Once an install has stored the shell, whatever happens next: no navigation is answered with
      the bare offline page any more, and one answered from the cache gets a genuine shell. */
  lemma {:induction false} OfflineNavigationGetsShell(
    names: set<string>, events: seq<Event>, later: seq<Event>, id: nat)
    requires INDEX in KeySet(Run(names, events).shell)
    requires id in Run(names, events + later).tasks
    ensures var before, now := Run(names, events).tasks, Run(names, events + later).tasks[id];
            && (now.AnsweredOffline? ==> id in before && before[id].AnsweredOffline?)
            && (now.AnsweredShell? ==> IsAppShell(now.shell))
  {
    hide Apply, ContentsOk, IsAppShell;
    ContentsAlwaysOk(names, events + later);
    TaskIsOk(Run(names, events + later), id);
    if later == [] {
      assert events + later == events;
    } else {
      var last := |later| - 1;
      var before := events + later[..last];
      assert (events + later)[..|events + later| - 1] == before;
      ShellNeverShrinks(names, events, later[..last], INDEX);
      ApplyIsNotOffline(Run(names, before), later[last], id);
      if id in Run(names, before).tasks {
        OfflineNavigationGetsShell(names, events, later[..last], id);
      }
    }
  }
}
