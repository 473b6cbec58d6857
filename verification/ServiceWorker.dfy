/** The service worker's caches as a state machine: every handler is split at its awaits, and
    the steps of any number of handlers interleave in any order. */
module ServiceWorker {
  import opened Wrappers

  /** A same-origin URL: its path followed by its query, if any. */
  type Url = string

  const SHELL_CACHE := "finco-pwa-v5:shell"
  const STATIC_CACHE := "finco-pwa-v5:static"
  const CACHE_PREFIX := "finco-pwa-"
  const MAX_STATIC_ENTRIES: nat := 96
  const INDEX: Url := "/index.html"

  const APP_SHELL: set<Url> := {
    INDEX, "/manifest.webmanifest", "/finco-favicon.svg", "/finco-pwa-icon.svg", "/finco-pwa-maskable.svg",
    "/favicon-16x16.png", "/favicon-32x32.png", "/favicon-96x96.png", "/apple-touch-icon.png",
    "/android-icon-192x192.png", "/android-icon-512x512.png", "/android-icon-maskable-512x512.png",
    "/fonts/open-runde/open-runde-regular.woff2", "/fonts/open-runde/open-runde-medium.woff2",
    "/fonts/open-runde/open-runde-semibold.woff2", "/fonts/open-runde/open-runde-bold.woff2",
    "/spaceui/coin.webp", "/spaceui/target.webp"
  }
  const PUBLIC_ASSETS: set<Url> := APP_SHELL - {INDEX}

  /** What the handlers read of a response. `links` are the asset references in its HTML: each as
      it is written, with the URL the browser resolves it to. The two may differ by more than the
      origin, since resolving removes dot segments. */
  datatype Response = Response(
    ok: bool, redirected: bool, opaqueType: bool, html: bool, sameOrigin: bool, finalUrl: Url,
    shellMarker: bool, noStoreOrPrivate: bool, links: map<string, Url>, body: string)

  predicate StartsWith(s: string, prefix: string) {
    prefix <= s
  }

  /** A URL's path, or a reference as it is written. */
  predicate IsStatic(u: string) {
    StartsWith(u, "/static/")
  }

  /** The URL without its query. */
  function PathOf(u: Url): (path: string)
    ensures path <= u && '?' !in path && (path == u || u[|path|] == '?')
  {
    if u == "" || u[0] == '?' then "" else [u[0]] + PathOf(u[1..])
  }

  predicate PublicResponse(r: Response) {
    r.ok && !r.redirected && !r.opaqueType
  }

  predicate IsAppShell(r: Response) {
    PublicResponse(r) && r.html && r.sameOrigin && r.finalUrl == INDEX && r.shellMarker
  }

  // ---------- One cache: entries in insertion order ----------

  datatype Entry = Entry(key: Url, response: Response)
  type Cache = seq<Entry>

  function Keys(c: Cache): (keys: seq<Url>)
    ensures |keys| == |c|
    ensures forall i :: 0 <= i < |c| ==> keys[i] == c[i].key
  {
    seq(|c|, i requires 0 <= i < |c| => c[i].key)
  }

  ghost function KeySet(c: Cache): set<Url> {
    set e | e in c :: e.key
  }

  predicate Has(c: Cache, u: Url) {
    exists i :: 0 <= i < |c| && c[i].key == u
  }

  function Match(c: Cache, u: Url): (r: Option<Response>)
    ensures r.Some? ==> Entry(u, r.value) in c
    ensures r.None? <==> !Has(c, u)
  {
    if c == [] then None
    else if c[0].key == u then Some(c[0].response)
    else
      assert Has(c, u) ==> Has(c[1..], u) by {
        if i :| 0 <= i < |c| && c[i].key == u { assert c[1..][i - 1].key == u; }
      }
      Match(c[1..], u)
  }

  function Delete(c: Cache, u: Url): (after: Cache)
    ensures forall e :: e in after <==> e in c && e.key != u
  {
    if c == [] then [] else (if c[0].key == u then [] else [c[0]]) + Delete(c[1..], u)
  }

  /** A put replaces an entry of the same key and goes to the end of the order. */
  function Put(c: Cache, u: Url, r: Response): (after: Cache)
    ensures forall e :: e in after <==> e == Entry(u, r) || (e in c && e.key != u)
  {
    Delete(c, u) + [Entry(u, r)]
  }

  ghost predicate DistinctKeys(c: Cache) {
    forall i, j :: 0 <= i < j < |c| ==> c[i].key != c[j].key
  }

  lemma {:induction false} DeleteKeepsDistinct(c: Cache, u: Url)
    requires DistinctKeys(c)
    ensures DistinctKeys(Delete(c, u))
  {
    if c != [] {
      var rest := c[1..];
      assert DistinctKeys(rest) by {
        assert forall i :: 0 <= i < |rest| ==> rest[i] == c[i + 1];
      }
      DeleteKeepsDistinct(rest, u);
      var after := Delete(rest, u);
      forall j | 0 <= j < |after| ensures after[j].key != c[0].key {
        assert after[j] in after;
        var i :| 0 <= i < |rest| && rest[i] == after[j];
        assert rest[i] == c[i + 1];
      }
    }
  }

  lemma PutKeepsDistinct(c: Cache, u: Url, r: Response)
    requires DistinctKeys(c)
    ensures DistinctKeys(Put(c, u, r))
  {
    DeleteKeepsDistinct(c, u);
    forall i | 0 <= i < |Delete(c, u)| ensures Delete(c, u)[i].key != u {
      assert Delete(c, u)[i] in Delete(c, u);
    }
  }

  lemma {:induction false} DistinctKeysCount(c: Cache)
    requires DistinctKeys(c)
    ensures |KeySet(c)| == |c|
  {
    if c != [] {
      var last := |c| - 1;
      DistinctKeysCount(c[..last]);
      assert c == c[..last] + [c[last]];
      assert KeySet(c) == KeySet(c[..last]) + {c[last].key};
      forall e | e in c[..last] ensures e.key != c[last].key {
        var i :| 0 <= i < last && c[i] == e;
      }
    }
  }

  // ---------- Trimming works from a snapshot of the keys ----------

  /** The keys a trim decides to delete: the oldest ones beyond the limit. */
  function Doomed(c: Cache): set<Url> {
    if |c| <= MAX_STATIC_ENTRIES then {}
    else set i | 0 <= i < |c| - MAX_STATIC_ENTRIES :: Keys(c)[i]
  }

  lemma {:induction false} FewKeys(c: Cache)
    ensures |KeySet(c)| <= |c|
  {
    if c != [] {
      FewKeys(c[1..]);
      assert KeySet(c) == KeySet(c[1..]) + {c[0].key};
    }
  }

  lemma SubsetSize<T>(a: set<T>, b: set<T>)
    requires a <= b
    ensures |a| <= |b|
  {
    assert b == a + (b - a);
  }

  /** Whatever the trim dooms, at most the limit is left outside it. */
  lemma DoomedLeavesFew(c: Cache)
    ensures |KeySet(c) - Doomed(c)| <= MAX_STATIC_ENTRIES
  {
    if |c| <= MAX_STATIC_ENTRIES {
      FewKeys(c);
      SubsetSize(KeySet(c) - Doomed(c), KeySet(c));
    } else {
      var cut := |c| - MAX_STATIC_ENTRIES;
      assert forall i :: 0 <= i < cut ==> Keys(c)[i] in Doomed(c);
      forall u | u in KeySet(c) - Doomed(c) ensures u in KeySet(c[cut..]) {
        var e :| e in c && e.key == u;
        var i :| 0 <= i < |c| && c[i] == e;
        assert Keys(c)[i] == u;
        assert c[i] == c[cut..][i - cut];
      }
      FewKeys(c[cut..]);
      SubsetSize(KeySet(c) - Doomed(c), KeySet(c[cut..]));
    }
  }

  // ---------- Handlers between awaits ----------

  /** One reference of the install's asset warming, with the URL it resolves to. */
  datatype WarmJob =
    | WarmMatch(url: Url)
    | WarmFetch(url: Url)
    | WarmPut(url: Url, response: Response)
    | WarmStored(url: Url)
    | WarmSettled(url: Url)

  /** One URL of the install's optional icons and fonts. */
  datatype AssetJob = AssetFetch | AssetPut(response: Response) | AssetSettled

  datatype Task =
    // cacheFirstStatic
    | StaticMatch(url: Url)
    | StaticFetch(url: Url)
    | StaticPut(url: Url, response: Response)
    | StaticTrim(url: Url, response: Response)
    | StaticDelete(doomed: set<Url>, url: Url, response: Response)
    // cacheFirstPublicAsset
    | PublicMatch(url: Url)
    | PublicFetch(url: Url)
    | PublicPut(url: Url, response: Response)
    // networkFirstNavigation
    | NavigateFetch(url: Url)
    | NavigateMatch(url: Url)
    // install
    | InstallFetch
    | InstallPut(response: Response)
    | InstallWarm(jobs: map<string, WarmJob>)
    | InstallTrim(stored: set<Url>)
    | InstallDelete(doomed: set<Url>)
    | InstallAssets(assets: map<Url, AssetJob>)
    // activate
    | ActivateList
    | ActivateDelete(names: set<string>)
    // finished
    | Answered(url: Url, response: Response)
    | AnsweredShell(shell: Response)
    | AnsweredOffline
    | Finished
    | Failed

  /** What the outside decides at an await: the network's answer (None: unreachable), whether a
      put succeeds, and which of several concurrent operations completes. */
  datatype Input = Input(network: Option<Response>, stored: bool, which: string)

  datatype World = World(
    statics: Cache, shell: Cache, names: set<string>, served: set<(Url, Response)>,
    tasks: map<nat, Task>, abandoned: set<Url>)

  /** The parts of the world one step of one handler can touch. */
  datatype Effect = Effect(
    task: Task, statics: Cache, shell: Cache, names: set<string>, served: set<(Url, Response)>, trimmed: bool)

  function Same(w: World, task: Task): Effect {
    Effect(task, w.statics, w.shell, w.names, w.served, false)
  }

  predicate WarmSettledAll(jobs: map<string, WarmJob>) {
    forall t :: t in jobs ==> jobs[t].WarmStored? || jobs[t].WarmSettled?
  }

  predicate AssetsSettledAll(assets: map<Url, AssetJob>) {
    forall u :: u in assets ==> assets[u].AssetSettled?
  }

  function StartAssets(): Task {
    InstallAssets(map u | u in PUBLIC_ASSETS :: AssetFetch)
  }

  /** Static-cache keys a handler has put but not yet trimmed for, or is about to delete. */
  function Owed(task: Task): set<Url> {
    match task
    case StaticTrim(u, _) => {u}
    case StaticDelete(doomed, _, _) => doomed
    case InstallWarm(jobs) => set t | t in jobs && jobs[t].WarmStored? :: jobs[t].url
    case InstallTrim(stored) => stored
    case InstallDelete(doomed) => doomed
    case _ => {}
  }

  /** One await of one handler completes. */
  function StepTask(w: World, task: Task, input: Input): Effect {
    match task
    case StaticMatch(u) =>
      (match Match(w.statics, u)
       case Some(r) => Same(w, Answered(u, r))
       case None => Same(w, StaticFetch(u)))
    case StaticFetch(u) =>
      (match input.network
       case None => Same(w, Failed)
       case Some(r) =>
         Same(w, if PublicResponse(r) && !r.noStoreOrPrivate then StaticPut(u, r) else Answered(u, r))
           .(served := w.served + {(u, r)}))
    case StaticPut(u, r) =>
      if input.stored then Same(w, StaticTrim(u, r)).(statics := Put(w.statics, u, r))
      else Same(w, Failed)
    case StaticTrim(u, r) =>
      Same(w, StaticDelete(Doomed(w.statics), u, r)).(trimmed := true)
    case StaticDelete(doomed, u, r) =>
      if doomed == {} then Same(w, Answered(u, r))
      else if input.which in doomed then
        Same(w, StaticDelete(doomed - {input.which}, u, r)).(statics := Delete(w.statics, input.which))
      else Same(w, task)
    case PublicMatch(u) =>
      (match Match(w.shell, u)
       case Some(r) => Same(w, Answered(u, r))
       case None => Same(w, PublicFetch(u)))
    case PublicFetch(u) =>
      (match input.network
       case None => Same(w, Failed)
       case Some(r) =>
         Same(w, if PublicResponse(r) then PublicPut(u, r) else Answered(u, r)).(served := w.served + {(u, r)}))
    case PublicPut(u, r) =>
      if input.stored then Same(w, Answered(u, r)).(shell := Put(w.shell, u, r)) else Same(w, Failed)
    case NavigateFetch(u) =>
      (match input.network
       case None => Same(w, NavigateMatch(u))
       case Some(r) => Same(w, Answered(u, r)).(served := w.served + {(u, r)}))
    case NavigateMatch(u) =>
      (match Match(w.shell, INDEX)
       case Some(r) => Same(w, AnsweredShell(r))
       case None => Same(w, AnsweredOffline))
    case InstallFetch =>
      (match input.network
       case None => Same(w, Failed)
       case Some(r) =>
         Same(w, if IsAppShell(r) then InstallPut(r) else Failed).(served := w.served + {(INDEX, r)}))
    case InstallPut(r) =>
      if !input.stored then Same(w, Failed)
      else
        var texts := set t | t in r.links && IsStatic(t);
        if texts == {} then Same(w, StartAssets()).(shell := Put(w.shell, INDEX, r))
        else
          Same(w, InstallWarm(map t | t in texts :: WarmMatch(r.links[t])))
            .(shell := Put(w.shell, INDEX, r), names := w.names + {STATIC_CACHE})
    case InstallWarm(jobs) =>
      if WarmSettledAll(jobs) then Same(w, InstallTrim(Owed(task)))
      else if input.which in jobs then StepWarm(w, jobs, input.which, input)
      else Same(w, task)
    case InstallTrim(stored) =>
      Same(w, InstallDelete(Doomed(w.statics))).(trimmed := true)
    case InstallDelete(doomed) =>
      if doomed == {} then Same(w, StartAssets())
      else if input.which in doomed then
        Same(w, InstallDelete(doomed - {input.which})).(statics := Delete(w.statics, input.which))
      else Same(w, task)
    case InstallAssets(assets) =>
      if AssetsSettledAll(assets) then Same(w, Finished)
      else if input.which in assets then StepAsset(w, assets, input.which, input)
      else Same(w, task)
    case ActivateList =>
      Same(w, ActivateDelete(set n | n in w.names && StartsWith(n, CACHE_PREFIX) && n !in {SHELL_CACHE, STATIC_CACHE}))
    case ActivateDelete(names) =>
      if names == {} then Same(w, Finished)
      else if input.which in names then
        Same(w, ActivateDelete(names - {input.which})).(names := w.names - {input.which})
      else Same(w, task)
    case _ => Same(w, task)
  }

  function StepWarm(w: World, jobs: map<string, WarmJob>, t: string, input: Input): Effect
    requires t in jobs
  {
    match jobs[t]
    case WarmMatch(u) =>
      Same(w, InstallWarm(jobs[t := if Match(w.statics, u).Some? then WarmSettled(u) else WarmFetch(u)]))
    case WarmFetch(u) =>
      (match input.network
       case None => Same(w, InstallWarm(jobs[t := WarmSettled(u)]))
       case Some(r) =>
         Same(w, InstallWarm(jobs[t := if PublicResponse(r) then WarmPut(u, r) else WarmSettled(u)]))
           .(served := w.served + {(u, r)}))
    case WarmPut(u, r) =>
      if input.stored then Same(w, InstallWarm(jobs[t := WarmStored(u)])).(statics := Put(w.statics, u, r))
      else Same(w, InstallWarm(jobs[t := WarmSettled(u)]))
    case _ => Same(w, InstallWarm(jobs))
  }

  function StepAsset(w: World, assets: map<Url, AssetJob>, u: Url, input: Input): Effect
    requires u in assets
  {
    match assets[u]
    case AssetFetch =>
      (match input.network
       case None => Same(w, InstallAssets(assets[u := AssetSettled]))
       case Some(r) =>
         Same(w, InstallAssets(assets[u := if PublicResponse(r) then AssetPut(r) else AssetSettled]))
           .(served := w.served + {(u, r)}))
    case AssetPut(r) =>
      if input.stored then Same(w, InstallAssets(assets[u := AssetSettled])).(shell := Put(w.shell, u, r))
      else Same(w, InstallAssets(assets[u := AssetSettled]))
    case AssetSettled => Same(w, InstallAssets(assets))
  }

  // ---------- Dispatch of fetch events ----------

  datatype Request = Request(verb: string, sameOrigin: bool, path: string, search: string,
                             authorization: bool, navigate: bool)

  datatype Handler = ToNetwork | Navigation | StaticAsset | PublicAsset

  predicate IsPrivatePath(path: string) {
    path == "/api" || StartsWith(path, "/api/") || path == "/mcp" || StartsWith(path, "/mcp/")
  }

  function Dispatch(q: Request): Handler {
    if q.verb != "GET" || !q.sameOrigin then ToNetwork
    else if IsPrivatePath(q.path) then ToNetwork
    else if q.search != "" || q.authorization
            || q.path in {"/reset-password", "/verify-email", "/oauth/callback"} then ToNetwork
    else if q.path == "/" || q.path == "/welcome" || StartsWith(q.path, "/welcome/") then ToNetwork
    else if q.navigate then Navigation
    else if IsStatic(q.path) then StaticAsset
    else if q.path in PUBLIC_ASSETS then PublicAsset
    else ToNetwork
  }

  // ---------- Runs ----------

  /** Everything that can happen: an event reaches the worker, some handler takes its next
      step, or the browser stops a handler for good. */
  datatype Event =
    | Fetch(id: nat, request: Request)
    | Install(id: nat)
    | Activate(id: nat)
    | Step(id: nat, input: Input)
    | Stop(id: nat)

  /** A handler starts under a fresh id, opening the caches it uses. */
  function Begin(w: World, id: nat, task: Task, opens: set<string>): World {
    if id in w.tasks then w else w.(tasks := w.tasks[id := task], names := w.names + opens)
  }

  /** The world after one step of handler `id`. */
  function Updated(w: World, id: nat, f: Effect): World {
    World(f.statics, f.shell, f.names, f.served, w.tasks[id := f.task], if f.trimmed then {} else w.abandoned)
  }

  function Apply(w: World, e: Event): World {
    match e
    case Fetch(id, q) =>
      (match Dispatch(q)
       case ToNetwork => w
       case Navigation => Begin(w, id, NavigateFetch(q.path), {SHELL_CACHE})
       case StaticAsset => Begin(w, id, StaticMatch(q.path), {STATIC_CACHE})
       case PublicAsset => Begin(w, id, PublicMatch(q.path), {SHELL_CACHE}))
    case Install(id) => Begin(w, id, InstallFetch, {SHELL_CACHE})
    case Activate(id) => Begin(w, id, ActivateList, {})
    case Step(id, input) =>
      if id !in w.tasks then w
      else
        Updated(w, id, StepTask(w, w.tasks[id], input))
    case Stop(id) =>
      if id !in w.tasks then w
      else w.(tasks := w.tasks[id := Failed], abandoned := w.abandoned + Owed(w.tasks[id]))
  }

  /** A fresh worker: no entry in either cache; other caches of the origin may exist. */
  function Fresh(names: set<string>): World {
    World([], [], names, {}, map[], {})
  }

  function Run(names: set<string>, events: seq<Event>): World {
    if events == [] then Fresh(names)
    else Apply(Run(names, events[..|events| - 1]), events[|events| - 1])
  }
}
