/** What each handler of the service worker does from its event to its answer, whatever the other
    handlers do in between, told by what the network and the caches gave it. */
module ServiceWorkerStories {
  import opened Wrappers
  import opened ServiceWorker
  import opened ServiceWorkerSafety

  // ---------- Which requests are answered ----------

  /** A GET of this origin, without query or credentials, outside the API, the recovery pages and the
      marketing site. */
  ghost predicate Handled(q: Request) {
    && q.verb == "GET" && q.sameOrigin && q.search == "" && !q.authorization
    && q.path !in {"/api", "/mcp", "/reset-password", "/verify-email", "/oauth/callback", "/", "/welcome"}
    && !("/api/" <= q.path) && !("/mcp/" <= q.path) && !("/welcome/" <= q.path)
  }

  lemma DispatchExactly(q: Request)
    ensures Dispatch(q) == Navigation <==> Handled(q) && q.navigate
    ensures Dispatch(q) == StaticAsset <==> Handled(q) && !q.navigate && "/static/" <= q.path
    ensures Dispatch(q) == PublicAsset <==>
              Handled(q) && !q.navigate && !("/static/" <= q.path) && q.path in APP_SHELL - {"/index.html"}
    ensures Dispatch(q) == ToNetwork <==>
              !Handled(q) || (!q.navigate && !("/static/" <= q.path) && q.path !in APP_SHELL - {"/index.html"})
  {
    hide APP_SHELL;
    assert PUBLIC_ASSETS == APP_SHELL - {"/index.html"};
  }

  // ---------- Responses ----------

  /** Worth storing at all. */
  ghost predicate Storable(r: Response) {
    r.ok && !r.redirected && !r.opaqueType
  }

  /** Worth keeping as a static asset. */
  ghost predicate Keepable(r: Response) {
    Storable(r) && !r.noStoreOrPrivate
  }

  /** The application's own shell document. */
  ghost predicate Genuine(r: Response) {
    Storable(r) && r.html && r.sameOrigin && r.finalUrl == "/index.html" && r.shellMarker
  }

  /** Whatever is stored is worth storing, and came from the network under its own URL. */
  lemma StoredIsStorable(names: set<string>, events: seq<Event>, e: Entry)
    requires e in Run(names, events).statics || e in Run(names, events).shell
    ensures Storable(e.response) && (e.key, e.response) in Run(names, events).served
    ensures e in Run(names, events).shell && e.key == "/index.html" ==> Genuine(e.response)
  {
    hide Allowed, APP_SHELL;
    ContentsAlwaysOk(names, events);
    var w := Run(names, events);
    assert e in w.statics ==> StaticEntryOk(e, w.served);
    assert e in w.shell ==> ShellEntryOk(e, w.served);
  }

  // ---------- The history of one handler ----------

  /** The worlds since the handler's event, the events that led through them, and what the network
      gave the handler. */
  datatype History = History(worlds: seq<World>, events: seq<Event>, answers: seq<Option<Response>>)

  /** The handler is waiting for the network. */
  ghost predicate Asks(w: World, id: nat) {
    && id in w.tasks
    && (w.tasks[id].StaticFetch? || w.tasks[id].PublicFetch? || w.tasks[id].NavigateFetch? || w.tasks[id].InstallFetch?)
  }

  ghost function HistoryOf(names: set<string>, base: seq<Event>, later: seq<Event>, id: nat): (h: History)
    ensures h.worlds != [] && h.worlds[|h.worlds| - 1] == Run(names, base + later)
  {
    if later == [] then
      assert base + later == base;
      History([Run(names, base)], [], [])
    else
      var h := HistoryOf(names, base, later[..|later| - 1], id);
      assert (base + later)[..|base + later| - 1] == base + later[..|later| - 1];
      Next(h, Run(names, base + later[..|later| - 1]), later[|later| - 1], id)
  }

  /** The history after one more event. */
  ghost function Next(h: History, w: World, e: Event, id: nat): History {
    History(h.worlds + [Apply(w, e)], h.events + [e],
            h.answers + if e.Step? && e.id == id && Asks(w, id) then [e.input.network] else [])
  }

  ghost predicate HadStatic(h: History, u: Url) {
    exists w :: w in h.worlds && Has(w.statics, u)
  }

  ghost predicate MissedStatic(h: History, u: Url) {
    exists w :: w in h.worlds && !Has(w.statics, u)
  }

  ghost predicate HeldStatic(h: History, u: Url, r: Response) {
    exists w :: w in h.worlds && Entry(u, r) in w.statics
  }

  ghost predicate HadShell(h: History, u: Url) {
    exists w :: w in h.worlds && Has(w.shell, u)
  }

  ghost predicate MissedShell(h: History, u: Url) {
    exists w :: w in h.worlds && !Has(w.shell, u)
  }

  ghost predicate HeldShell(h: History, u: Url, r: Response) {
    exists w :: w in h.worlds && Entry(u, r) in w.shell
  }

  ghost predicate Stopped(h: History, id: nat) {
    Stop(id) in h.events
  }

  ghost predicate PutFailed(h: History, id: nat) {
    exists e :: e in h.events && e.Step? && e.id == id && !e.input.stored
  }

  /** One of several concurrent operations came to nothing: no network, a response not worth storing,
      or a put that failed. */
  ghost predicate Refused(h: History, id: nat, which: string) {
    exists e :: e in h.events && e.Step? && e.id == id && e.input.which == which
      && (e.input.network == None || !Storable(e.input.network.value) || !e.input.stored)
  }

  lemma HistoryGrows(h: History, w: World, e: Event, id: nat)
    ensures var n := Next(h, w, e, id);
            && (forall u :: HadStatic(h, u) ==> HadStatic(n, u))
            && (forall u :: MissedStatic(h, u) ==> MissedStatic(n, u))
            && (forall u, r :: HeldStatic(h, u, r) ==> HeldStatic(n, u, r))
            && (forall u :: HadShell(h, u) ==> HadShell(n, u))
            && (forall u :: MissedShell(h, u) ==> MissedShell(n, u))
            && (forall u, r :: HeldShell(h, u, r) ==> HeldShell(n, u, r))
            && (Stopped(h, id) ==> Stopped(n, id))
            && (PutFailed(h, id) ==> PutFailed(n, id))
            && (forall which :: Refused(h, id, which) ==> Refused(n, id, which))
  {
    var n := Next(h, w, e, id);
    assert forall x :: x in h.worlds ==> x in n.worlds;
    assert forall x :: x in h.events ==> x in n.events;
  }

  /** What the last two worlds and the last event add to a history. */
  lemma HistoryNow(h: History, w: World, e: Event, id: nat)
    requires w in h.worlds
    ensures var n := Next(h, w, e, id); var after := Apply(w, e);
            && (forall u :: Has(after.statics, u) || Has(w.statics, u) ==> HadStatic(n, u))
            && (forall u :: !Has(w.statics, u) ==> MissedStatic(n, u))
            && (forall u, r :: Entry(u, r) in after.statics || Entry(u, r) in w.statics ==> HeldStatic(n, u, r))
            && (forall u :: Has(after.shell, u) ==> HadShell(n, u))
            && (forall u :: !Has(w.shell, u) ==> MissedShell(n, u))
            && (forall u, r :: Entry(u, r) in after.shell || Entry(u, r) in w.shell ==> HeldShell(n, u, r))
            && (e == Stop(id) ==> Stopped(n, id))
            && (e.Step? && e.id == id && !e.input.stored ==> PutFailed(n, id))
            && (e.Step? && e.id == id
                && (e.input.network == None || !Storable(e.input.network.value) || !e.input.stored) ==>
                  Refused(n, id, e.input.which))
  {
    var n := Next(h, w, e, id);
    assert w in n.worlds && Apply(w, e) in n.worlds && e in n.events;
  }

  lemma NextAnswers(h: History, w: World, e: Event, id: nat)
    ensures Next(h, w, e, id).answers ==
              h.answers + if e.Step? && e.id == id && Asks(w, id) then [e.input.network] else []
  {
  }

  lemma HistoryStep(names: set<string>, base: seq<Event>, later: seq<Event>, id: nat)
    requires later != []
    ensures var before, last := later[..|later| - 1], later[|later| - 1];
            var h, w := HistoryOf(names, base, before, id), Run(names, base + before);
            && w in h.worlds
            && HistoryOf(names, base, later, id) == Next(h, w, last, id)
            && Run(names, base + later) == Apply(w, last)
  {
    hide Apply, Next;
    assert (base + later)[..|base + later| - 1] == base + later[..|later| - 1];
  }

  lemma RunStep(names: set<string>, base: seq<Event>, later: seq<Event>)
    requires later != []
    ensures Run(names, base + later) == Apply(Run(names, base + later[..|later| - 1]), later[|later| - 1])
  {
    hide Apply;
    assert (base + later)[..|base + later| - 1] == base + later[..|later| - 1];
  }

  /** A handler's history begins with the world its own event leaves. */
  lemma HistoryStart(names: set<string>, events: seq<Event>, e: Event, id: nat)
    ensures Run(names, events + [e]) == Apply(Run(names, events), e)
    ensures HistoryOf(names, events + [e], [], id).answers == []
    ensures events + [e] + [] == events + [e]
  {
    hide Apply;
    assert (events + [e])[..|events + [e]| - 1] == events;
  }

  /** A handler's task changes by its own steps, and by being stopped. */
  lemma TaskAfter(w: World, e: Event, id: nat)
    requires id in w.tasks
    ensures id in Apply(w, e).tasks
    ensures Apply(w, e).tasks[id] ==
              if e.Step? && e.id == id then StepTask(w, w.tasks[id], e.input).task
              else if e == Stop(id) then Failed
              else w.tasks[id]
    ensures e.Step? && e.id == id ==>
              && Apply(w, e).statics == StepTask(w, w.tasks[id], e.input).statics
              && Apply(w, e).shell == StepTask(w, w.tasks[id], e.input).shell
  {
    hide StepTask;
  }

  /** A put leaves its entry in the cache. */
  lemma PutHolds(c: Cache, u: Url, r: Response)
    ensures Entry(u, r) in Put(c, u, r) && Has(Put(c, u, r), u)
  {
    var i :| 0 <= i < |Put(c, u, r)| && Put(c, u, r)[i] == Entry(u, r);
  }

  lemma MatchHolds(c: Cache, u: Url)
    ensures Match(c, u).Some? ==> Entry(u, Match(c, u).value) in c && Has(c, u)
    ensures Match(c, u).None? ==> !Has(c, u)
  {
  }

  // ---------- networkFirstNavigation ----------

  /** The network's answer is the answer, whatever it is; only when there is none, the stored shell,
      and only when there is none either, the bare offline page. */
  ghost predicate NavigationStory(h: History, id: nat, u: Url, task: Task) {
    match task
    case NavigateFetch(v) => v == u && h.answers == []
    case Answered(v, r) => v == u && h.answers == [Some(r)]
    case NavigateMatch(v) => v == u && h.answers == [None]
    case AnsweredShell(r) => h.answers == [None] && HeldShell(h, "/index.html", r)
    case AnsweredOffline => h.answers == [None] && MissedShell(h, "/index.html")
    case Failed => Stopped(h, id)
    case _ => false
  }

  lemma NavigationStep(h: History, w: World, e: Event, id: nat, u: Url)
    requires w in h.worlds && id in w.tasks && NavigationStory(h, id, u, w.tasks[id])
    ensures id in Apply(w, e).tasks && NavigationStory(Next(h, w, e, id), id, u, Apply(w, e).tasks[id])
  {
    hide Apply, Next, HeldShell, MissedShell, Put, Delete, Doomed, Stopped, Owed;
    hide Match, StepWarm, StepAsset, StartAssets, PublicResponse, IsAppShell;
    NextAnswers(h, w, e, id);
    TaskAfter(w, e, id);
    HistoryGrows(h, w, e, id);
    HistoryNow(h, w, e, id);
    MatchHolds(w.shell, "/index.html");
  }

  /** Every navigation the worker handles, from its event on. */
  lemma {:induction false} NavigationRuns(
    names: set<string>, events: seq<Event>, id: nat, q: Request, later: seq<Event>)
    requires id !in Run(names, events).tasks && Handled(q) && q.navigate
    ensures var base := events + [Fetch(id, q)];
            && id in Run(names, base + later).tasks
            && NavigationStory(HistoryOf(names, base, later, id), id, q.path, Run(names, base + later).tasks[id])
  {
    hide NavigationStory, Run, HistoryOf, Next, APP_SHELL;
    var base := events + [Fetch(id, q)];
    HistoryStart(names, events, Fetch(id, q), id);
    if later == [] {
      hide StepTask;
      DispatchExactly(q);
      FirstNavigation(HistoryOf(names, base, [], id), id, q.path);
    } else {
      hide Apply;
      var before := later[..|later| - 1];
      NavigationRuns(names, events, id, q, before);
      HistoryStep(names, base, later, id);
      NavigationStep(HistoryOf(names, base, before, id), Run(names, base + before), later[|later| - 1], id, q.path);
    }
  }

  lemma FirstNavigation(h: History, id: nat, u: Url)
    requires h.answers == []
    ensures NavigationStory(h, id, u, NavigateFetch(u))
  {
  }

  // ---------- cacheFirstStatic ----------

  /** A stored response is the answer without asking the network; otherwise the network's answer is,
      after it was stored if it is worth keeping. */
  ghost predicate StaticStory(h: History, id: nat, u: Url, task: Task) {
    match task
    case StaticMatch(v) => v == u && h.answers == []
    case StaticFetch(v) => v == u && h.answers == [] && MissedStatic(h, u)
    case StaticPut(v, r) => v == u && h.answers == [Some(r)] && MissedStatic(h, u) && Keepable(r)
    case StaticTrim(v, r) => v == u && h.answers == [Some(r)] && MissedStatic(h, u) && HeldStatic(h, u, r)
    case StaticDelete(_, v, r) => v == u && h.answers == [Some(r)] && MissedStatic(h, u) && HeldStatic(h, u, r)
    case Answered(v, r) =>
      && v == u
      && ((h.answers == [] && HeldStatic(h, u, r))
          || (h.answers == [Some(r)] && MissedStatic(h, u) && (Keepable(r) ==> HeldStatic(h, u, r))))
    case Failed => Stopped(h, id) || h.answers == [None] || PutFailed(h, id)
    case _ => false
  }

  lemma StaticOwnStep(h: History, w: World, input: Input, id: nat, u: Url)
    requires w in h.worlds && id in w.tasks && StaticStory(h, id, u, w.tasks[id])
    ensures StaticStory(Next(h, w, Step(id, input), id), id, u, StepTask(w, w.tasks[id], input).task)
  {
    hide Apply, Next, HeldStatic, MissedStatic, PutFailed, Stopped;
    hide Put, Delete, Doomed, Owed, Match, StepWarm, StepAsset;
    hide StartAssets, WarmSettledAll, AssetsSettledAll, IsAppShell;
    var e := Step(id, input);
    NextAnswers(h, w, e, id);
    TaskAfter(w, e, id);
    HistoryGrows(h, w, e, id);
    HistoryNow(h, w, e, id);
    MatchHolds(w.statics, u);
    if w.tasks[id].StaticPut? {
      PutHolds(w.statics, u, w.tasks[id].response);
    }
  }

  lemma StaticStep(h: History, w: World, e: Event, id: nat, u: Url)
    requires w in h.worlds && id in w.tasks && StaticStory(h, id, u, w.tasks[id])
    ensures id in Apply(w, e).tasks && StaticStory(Next(h, w, e, id), id, u, Apply(w, e).tasks[id])
  {
    hide Apply, Next, StepTask, HeldStatic, MissedStatic, PutFailed, Stopped;
    TaskAfter(w, e, id);
    if e.Step? && e.id == id {
      StaticOwnStep(h, w, e.input, id, u);
    } else {
      NextAnswers(h, w, e, id);
      HistoryGrows(h, w, e, id);
      HistoryNow(h, w, e, id);
    }
  }

  /** Every request for a static asset, from its event on. */
  lemma {:induction false} StaticRuns(
    names: set<string>, events: seq<Event>, id: nat, q: Request, later: seq<Event>)
    requires id !in Run(names, events).tasks && Handled(q) && !q.navigate && "/static/" <= q.path
    ensures var base := events + [Fetch(id, q)];
            && id in Run(names, base + later).tasks
            && StaticStory(HistoryOf(names, base, later, id), id, q.path, Run(names, base + later).tasks[id])
  {
    hide StaticStory, Run, HistoryOf, Next, APP_SHELL;
    var base := events + [Fetch(id, q)];
    HistoryStart(names, events, Fetch(id, q), id);
    if later == [] {
      hide StepTask;
      DispatchExactly(q);
      FirstStatic(HistoryOf(names, base, [], id), id, q.path);
    } else {
      hide Apply;
      var before := later[..|later| - 1];
      StaticRuns(names, events, id, q, before);
      HistoryStep(names, base, later, id);
      StaticStep(HistoryOf(names, base, before, id), Run(names, base + before), later[|later| - 1], id, q.path);
    }
  }

  lemma FirstStatic(h: History, id: nat, u: Url)
    requires h.answers == []
    ensures StaticStory(h, id, u, StaticMatch(u))
  {
  }

  // ---------- cacheFirstPublicAsset ----------

  ghost predicate PublicStory(h: History, id: nat, u: Url, task: Task) {
    match task
    case PublicMatch(v) => v == u && h.answers == []
    case PublicFetch(v) => v == u && h.answers == [] && MissedShell(h, u)
    case PublicPut(v, r) => v == u && h.answers == [Some(r)] && MissedShell(h, u) && Storable(r)
    case Answered(v, r) =>
      && v == u
      && ((h.answers == [] && HeldShell(h, u, r))
          || (h.answers == [Some(r)] && MissedShell(h, u) && (Storable(r) ==> HeldShell(h, u, r))))
    case Failed => Stopped(h, id) || h.answers == [None] || PutFailed(h, id)
    case _ => false
  }

  lemma PublicOwnStep(h: History, w: World, input: Input, id: nat, u: Url)
    requires w in h.worlds && id in w.tasks && PublicStory(h, id, u, w.tasks[id])
    ensures PublicStory(Next(h, w, Step(id, input), id), id, u, StepTask(w, w.tasks[id], input).task)
  {
    hide Apply, Next, HeldShell, MissedShell, PutFailed, Stopped;
    hide Put, Delete, Doomed, Owed, Match, StepWarm, StepAsset;
    hide StartAssets, WarmSettledAll, AssetsSettledAll, IsAppShell;
    var e := Step(id, input);
    NextAnswers(h, w, e, id);
    TaskAfter(w, e, id);
    HistoryGrows(h, w, e, id);
    HistoryNow(h, w, e, id);
    MatchHolds(w.shell, u);
    if w.tasks[id].PublicPut? {
      PutHolds(w.shell, u, w.tasks[id].response);
    }
  }

  lemma PublicStep(h: History, w: World, e: Event, id: nat, u: Url)
    requires w in h.worlds && id in w.tasks && PublicStory(h, id, u, w.tasks[id])
    ensures id in Apply(w, e).tasks && PublicStory(Next(h, w, e, id), id, u, Apply(w, e).tasks[id])
  {
    hide Apply, Next, StepTask, HeldShell, MissedShell, PutFailed, Stopped;
    TaskAfter(w, e, id);
    if e.Step? && e.id == id {
      PublicOwnStep(h, w, e.input, id, u);
    } else {
      NextAnswers(h, w, e, id);
      HistoryGrows(h, w, e, id);
      HistoryNow(h, w, e, id);
    }
  }

  /** Every request for a public asset of the application shell, from its event on. */
  lemma {:induction false} PublicRuns(
    names: set<string>, events: seq<Event>, id: nat, q: Request, later: seq<Event>)
    requires id !in Run(names, events).tasks && Handled(q) && !q.navigate && !("/static/" <= q.path)
    requires q.path in APP_SHELL - {"/index.html"}
    ensures var base := events + [Fetch(id, q)];
            && id in Run(names, base + later).tasks
            && PublicStory(HistoryOf(names, base, later, id), id, q.path, Run(names, base + later).tasks[id])
  {
    hide PublicStory, Run, HistoryOf, Next, APP_SHELL;
    var base := events + [Fetch(id, q)];
    HistoryStart(names, events, Fetch(id, q), id);
    if later == [] {
      hide StepTask;
      DispatchExactly(q);
      FirstPublic(HistoryOf(names, base, [], id), id, q.path);
    } else {
      hide Apply;
      var before := later[..|later| - 1];
      PublicRuns(names, events, id, q, before);
      HistoryStep(names, base, later, id);
      PublicStep(HistoryOf(names, base, before, id), Run(names, base + before), later[|later| - 1], id, q.path);
    }
  }

  lemma FirstPublic(h: History, id: nat, u: Url)
    requires h.answers == []
    ensures PublicStory(h, id, u, PublicMatch(u))
  {
  }

  /** Requests the worker does not handle leave everything as it is. */
  lemma OthersReachTheNetwork(w: World, id: nat, q: Request)
    requires !Handled(q) || (!q.navigate && !("/static/" <= q.path) && q.path !in APP_SHELL - {"/index.html"})
    ensures Apply(w, Fetch(id, q)) == w
  {
    hide APP_SHELL;
    DispatchExactly(q);
  }

  // ---------- install ----------

  /** The shell the install was given, which it has stored. */
  ghost predicate ShellKept(h: History, r: Response) {
    h.answers == [Some(r)] && Genuine(r) && HeldShell(h, "/index.html", r)
  }

  /** One asset reference of the shell on its way: looked up, fetched where it is missing, and stored
      if the response is worth it. */
  ghost predicate WarmJobStory(h: History, id: nat, t: string, job: WarmJob) {
    match job
    case WarmMatch(_) => true
    case WarmFetch(u) => MissedStatic(h, u)
    case WarmPut(u, x) => MissedStatic(h, u) && Storable(x)
    case WarmStored(u) => HadStatic(h, u)
    case WarmSettled(u) => HadStatic(h, u) || Refused(h, id, t)
  }

  ghost predicate WarmStory(h: History, id: nat, r: Response, jobs: map<string, WarmJob>) {
    && jobs != map[] && (forall t :: t in jobs <==> t in r.links && "/static/" <= t)
    && forall t :: t in jobs ==> jobs[t].url == r.links[t] && WarmJobStory(h, id, t, jobs[t])
  }

  /** Every asset reference of the shell has been stored, unless it was refused. */
  ghost predicate Warmed(h: History, id: nat, r: Response) {
    forall t :: t in r.links && "/static/" <= t ==> HadStatic(h, r.links[t]) || Refused(h, id, t)
  }

  ghost predicate AssetJobStory(h: History, id: nat, u: Url, job: AssetJob) {
    match job
    case AssetFetch => true
    case AssetPut(x) => Storable(x)
    case AssetSettled => HadShell(h, u) || Refused(h, id, u)
  }

  ghost predicate AssetStory(h: History, id: nat, assets: map<Url, AssetJob>) {
    && assets.Keys == APP_SHELL - {"/index.html"}
    && forall u :: u in assets ==> AssetJobStory(h, id, u, assets[u])
  }

  /** Every icon and font has been stored, unless it was refused. */
  ghost predicate Dressed(h: History, id: nat) {
    forall u :: u in APP_SHELL - {"/index.html"} ==> HadShell(h, u) || Refused(h, id, u)
  }

  /** An install that gets through has stored a genuine shell, then its assets, then the icons and
      fonts; it fails only without a genuine shell to store. */
  ghost predicate InstallStory(h: History, id: nat, task: Task) {
    match task
    case InstallFetch => h.answers == []
    case InstallPut(r) => h.answers == [Some(r)] && Genuine(r)
    case InstallWarm(jobs) => exists r :: ShellKept(h, r) && WarmStory(h, id, r, jobs)
    case InstallTrim(_) => exists r :: ShellKept(h, r) && Warmed(h, id, r)
    case InstallDelete(_) => exists r :: ShellKept(h, r) && Warmed(h, id, r)
    case InstallAssets(assets) => (exists r :: ShellKept(h, r) && Warmed(h, id, r)) && AssetStory(h, id, assets)
    case Finished => (exists r :: ShellKept(h, r) && Warmed(h, id, r)) && Dressed(h, id)
    case Failed =>
      || Stopped(h, id) || h.answers == [None] || PutFailed(h, id)
      || (exists r :: h.answers == [Some(r)] && !Genuine(r))
    case _ => false
  }

  lemma InstallKept(h: History, w: World, e: Event, id: nat, task: Task)
    requires InstallStory(h, id, task) && Next(h, w, e, id).answers == h.answers
    ensures InstallStory(Next(h, w, e, id), id, task)
  {
    hide Apply, Next, HeldShell, HadStatic, MissedStatic, HadShell, Refused, Stopped, PutFailed, APP_SHELL;
    HistoryGrows(h, w, e, id);
    var n := Next(h, w, e, id);
    match task
    case InstallWarm(jobs) =>
      var r :| ShellKept(h, r) && WarmStory(h, id, r, jobs);
      assert ShellKept(n, r) && WarmStory(n, id, r, jobs);
    case InstallTrim(_) | InstallDelete(_) | InstallAssets(_) | Finished =>
      var r :| ShellKept(h, r) && Warmed(h, id, r);
      assert ShellKept(n, r) && Warmed(n, id, r);
    case _ =>
  }

  lemma FetchOwnStep(h: History, w: World, input: Input, id: nat)
    requires w in h.worlds && id in w.tasks && w.tasks[id].InstallFetch? && InstallStory(h, id, w.tasks[id])
    ensures InstallStory(Next(h, w, Step(id, input), id), id, StepTask(w, w.tasks[id], input).task)
  {
    hide Apply, Next, HeldShell, HadStatic, MissedStatic, HadShell, Refused, Stopped, PutFailed, APP_SHELL;
    NextAnswers(h, w, Step(id, input), id);
  }

  lemma AssetsStart(h: History, id: nat)
    ensures StartAssets().InstallAssets? && AssetStory(h, id, StartAssets().assets)
  {
    hide APP_SHELL;
    assert PUBLIC_ASSETS == APP_SHELL - {"/index.html"};
  }

  lemma PutOwnStep(h: History, w: World, input: Input, id: nat)
    requires w in h.worlds && id in w.tasks && w.tasks[id].InstallPut? && InstallStory(h, id, w.tasks[id])
    ensures InstallStory(Next(h, w, Step(id, input), id), id, StepTask(w, w.tasks[id], input).task)
  {
    hide Apply, Next, HeldShell, HadStatic, MissedStatic, HadShell, Refused, Stopped, PutFailed, APP_SHELL;
    hide StartAssets, Put;
    var e, n := Step(id, input), Next(h, w, Step(id, input), id);
    var r := w.tasks[id].response;
    NextAnswers(h, w, e, id);
    TaskAfter(w, e, id);
    HistoryNow(h, w, e, id);
    AssetsStart(n, id);
    if input.stored {
      PutHolds(w.shell, "/index.html", r);
      assert ShellKept(n, r);
      var texts := set t | t in r.links && IsStatic(t);
      if texts == {} {
        assert forall t :: t in r.links && "/static/" <= t ==> t in texts;
        assert Warmed(n, id, r);
      } else {
        var first :| first in texts;
        assert first in StepTask(w, w.tasks[id], input).task.jobs;
        assert WarmStory(n, id, r, StepTask(w, w.tasks[id], input).task.jobs);
      }
    }
  }

  lemma WarmOwnStep(h: History, w: World, input: Input, id: nat)
    requires w in h.worlds && id in w.tasks && w.tasks[id].InstallWarm? && InstallStory(h, id, w.tasks[id])
    ensures InstallStory(Next(h, w, Step(id, input), id), id, StepTask(w, w.tasks[id], input).task)
  {
    hide Apply, Next, HeldShell, HadStatic, MissedStatic, HadShell, Refused, Stopped, PutFailed, APP_SHELL, StepWarm;
    var e, n := Step(id, input), Next(h, w, Step(id, input), id);
    var jobs := w.tasks[id].jobs;
    NextAnswers(h, w, e, id);
    InstallKept(h, w, e, id, w.tasks[id]);
    var r :| ShellKept(n, r) && WarmStory(n, id, r, jobs);
    if WarmSettledAll(jobs) {
      forall t | t in r.links && "/static/" <= t ensures HadStatic(n, r.links[t]) || Refused(n, id, t) {
        assert t in jobs && WarmJobStory(n, id, t, jobs[t]);
      }
      assert Warmed(n, id, r);
    } else if input.which in jobs {
      var f := StepWarm(w, jobs, input.which, input);
      OneWarmStep(h, w, input, id, jobs, r);
      assert WarmStory(n, id, r, f.task.jobs);
    }
  }

  lemma OneWarmStep(h: History, w: World, input: Input, id: nat, jobs: map<string, WarmJob>, r: Response)
    requires w in h.worlds && id in w.tasks && w.tasks[id] == InstallWarm(jobs) && input.which in jobs
    requires !WarmSettledAll(jobs)
    requires WarmStory(Next(h, w, Step(id, input), id), id, r, jobs)
    ensures StepWarm(w, jobs, input.which, input).task.InstallWarm?
    ensures WarmStory(Next(h, w, Step(id, input), id), id, r, StepWarm(w, jobs, input.which, input).task.jobs)
  {
    hide Apply, Next, WarmJobStory, StepWarm;
    OneJobStep(h, w, input, id, jobs);
  }

  lemma OneJobStep(h: History, w: World, input: Input, id: nat, jobs: map<string, WarmJob>)
    requires w in h.worlds && id in w.tasks && w.tasks[id] == InstallWarm(jobs) && input.which in jobs
    requires !WarmSettledAll(jobs)
    requires WarmJobStory(Next(h, w, Step(id, input), id), id, input.which, jobs[input.which])
    ensures var t, task := input.which, StepWarm(w, jobs, input.which, input).task;
            && task.InstallWarm? && task.jobs.Keys == jobs.Keys
            && task.jobs == jobs[t := task.jobs[t]] && task.jobs[t].url == jobs[t].url
            && WarmJobStory(Next(h, w, Step(id, input), id), id, t, task.jobs[t])
  {
    hide Apply, Next, HadStatic, MissedStatic, Refused, Put, Delete, Doomed, Owed, StepAsset;
    var t := input.which;
    assert Apply(w, Step(id, input)).statics == StepWarm(w, jobs, t, input).statics by {
      TaskAfter(w, Step(id, input), id);
    }
    HistoryNow(h, w, Step(id, input), id);
    MatchHolds(w.statics, jobs[t].url);
    if jobs[t].WarmPut? {
      PutHolds(w.statics, jobs[t].url, jobs[t].response);
    }
  }

  lemma TrimOwnStep(h: History, w: World, input: Input, id: nat)
    requires w in h.worlds && id in w.tasks && InstallStory(h, id, w.tasks[id])
    requires w.tasks[id].InstallTrim? || w.tasks[id].InstallDelete? || w.tasks[id].Finished? || w.tasks[id].Failed?
    ensures InstallStory(Next(h, w, Step(id, input), id), id, StepTask(w, w.tasks[id], input).task)
  {
    hide Apply, Next, HeldShell, HadStatic, MissedStatic, HadShell, Refused, Stopped, PutFailed, APP_SHELL, StartAssets;
    hide Warmed, Delete, Doomed;
    var n := Next(h, w, Step(id, input), id);
    NextAnswers(h, w, Step(id, input), id);
    InstallKept(h, w, Step(id, input), id, w.tasks[id]);
    AssetsStart(n, id);
  }

  lemma AssetsOwnStep(h: History, w: World, input: Input, id: nat)
    requires w in h.worlds && id in w.tasks && w.tasks[id].InstallAssets? && InstallStory(h, id, w.tasks[id])
    ensures InstallStory(Next(h, w, Step(id, input), id), id, StepTask(w, w.tasks[id], input).task)
  {
    hide Apply, Next, HeldShell, HadStatic, MissedStatic, HadShell, Refused, Stopped, PutFailed, APP_SHELL, Put, Warmed;
    var e, n, u := Step(id, input), Next(h, w, Step(id, input), id), input.which;
    var assets := w.tasks[id].assets;
    NextAnswers(h, w, e, id);
    InstallKept(h, w, e, id, w.tasks[id]);
    TaskAfter(w, e, id);
    HistoryNow(h, w, e, id);
    if AssetsSettledAll(assets) {
      forall v | v in APP_SHELL - {"/index.html"} ensures HadShell(n, v) || Refused(n, id, v) {
        assert v in assets && AssetJobStory(n, id, v, assets[v]);
      }
    } else if u in assets {
      if assets[u].AssetPut? {
        PutHolds(w.shell, u, assets[u].response);
      }
      assert AssetJobStory(n, id, u, assets[u]);
      assert AssetJobStory(n, id, u, StepAsset(w, assets, u, input).task.assets[u]);
    }
  }

  lemma InstallStep(h: History, w: World, e: Event, id: nat)
    requires w in h.worlds && id in w.tasks && InstallStory(h, id, w.tasks[id])
    ensures id in Apply(w, e).tasks && InstallStory(Next(h, w, e, id), id, Apply(w, e).tasks[id])
  {
    hide Apply, Next, StepTask, Stopped, PutFailed, Warmed, WarmStory, AssetStory, ShellKept, Dressed;
    TaskAfter(w, e, id);
    if e.Step? && e.id == id {
      if w.tasks[id].InstallFetch? {
        FetchOwnStep(h, w, e.input, id);
      } else if w.tasks[id].InstallPut? {
        PutOwnStep(h, w, e.input, id);
      } else if w.tasks[id].InstallWarm? {
        WarmOwnStep(h, w, e.input, id);
      } else if w.tasks[id].InstallAssets? {
        AssetsOwnStep(h, w, e.input, id);
      } else {
        TrimOwnStep(h, w, e.input, id);
      }
    } else {
      NextAnswers(h, w, e, id);
      HistoryNow(h, w, e, id);
      InstallKept(h, w, e, id, w.tasks[id]);
    }
  }

  /** Every install, from its event on. */
  lemma {:induction false} InstallRuns(names: set<string>, events: seq<Event>, id: nat, later: seq<Event>)
    requires id !in Run(names, events).tasks
    ensures var base := events + [Install(id)];
            && id in Run(names, base + later).tasks
            && InstallStory(HistoryOf(names, base, later, id), id, Run(names, base + later).tasks[id])
  {
    hide InstallStory, Run, HistoryOf, Next;
    var base := events + [Install(id)];
    HistoryStart(names, events, Install(id), id);
    if later == [] {
      hide StepTask;
      FirstInstall(HistoryOf(names, base, [], id), id);
    } else {
      hide Apply;
      var before := later[..|later| - 1];
      InstallRuns(names, events, id, before);
      HistoryStep(names, base, later, id);
      InstallStep(HistoryOf(names, base, before, id), Run(names, base + before), later[|later| - 1], id);
    }
  }

  lemma FirstInstall(h: History, id: nat)
    requires h.answers == []
    ensures InstallStory(h, id, InstallFetch)
  {
  }

  // ---------- activate ----------

  /** A cache of the application, of another version than this one. */
  ghost predicate Outdated(name: string) {
    "finco-pwa-" <= name && name != "finco-pwa-v5:shell" && name != "finco-pwa-v5:static"
  }

  ghost predicate ActivateStory(w: World, stopped: bool, task: Task) {
    match task
    case ActivateList => true
    case ActivateDelete(names) => forall n :: n in w.names && Outdated(n) ==> n in names
    case Finished => forall n :: n in w.names ==> !Outdated(n)
    case Failed => stopped
    case _ => false
  }

  /** Only caches of this version are ever opened. */
  lemma OnlyCurrentNamesOpen(w: World, e: Event)
    ensures forall n :: n in Apply(w, e).names && n !in w.names ==> !Outdated(n)
  {
    hide Put, Delete, Doomed, Match, Keys, Owed;
    assert !Outdated(SHELL_CACHE) && !Outdated(STATIC_CACHE);
    if e.Step? && e.id in w.tasks {
      StepOpensCurrent(w, w.tasks[e.id], e.input);
    }
  }

  lemma StepOpensCurrent(w: World, task: Task, input: Input)
    ensures StepTask(w, task, input).names <= w.names + {STATIC_CACHE}
  {
    hide Put, Delete, Doomed, Match, Keys, Owed;
  }

  lemma ActivateStep(w: World, e: Event, id: nat, stopped: bool)
    requires id in w.tasks && ActivateStory(w, stopped, w.tasks[id])
    ensures id in Apply(w, e).tasks
    ensures ActivateStory(Apply(w, e), stopped || e == Stop(id), Apply(w, e).tasks[id])
  {
    OnlyCurrentNamesOpen(w, e);
    TaskAfter(w, e, id);
    if e.Step? && e.id == id {
      ActivateOwnStep(w, e.input, id, stopped);
    }
  }

  lemma ActivateOwnStep(w: World, input: Input, id: nat, stopped: bool)
    requires id in w.tasks && ActivateStory(w, stopped, w.tasks[id])
    ensures ActivateStory(Apply(w, Step(id, input)), stopped, Apply(w, Step(id, input)).tasks[id])
  {
    hide Put, Delete, Doomed, Match, Keys, Owed;
    assert SHELL_CACHE == "finco-pwa-v5:shell" && STATIC_CACHE == "finco-pwa-v5:static";
    assert CACHE_PREFIX == "finco-pwa-";
  }

  /** Every activation, from its event on: once it has finished, no cache of another version of the
      application is left, whatever else happened in between and happens later. */
  lemma {:induction false} ActivateRuns(names: set<string>, events: seq<Event>, id: nat, later: seq<Event>)
    requires id !in Run(names, events).tasks
    ensures var w := Run(names, events + [Activate(id)] + later);
            && id in w.tasks
            && ActivateStory(w, Stop(id) in later, w.tasks[id])
            && (w.tasks[id].Finished? ==> forall n :: n in w.names ==> !Outdated(n))
  {
    hide ActivateStory, Run, HistoryOf, Outdated;
    var base := events + [Activate(id)];
    HistoryStart(names, events, Activate(id), id);
    if later == [] {
      hide StepTask;
      assert base + later == base;
      FirstActivate(Run(names, base));
    } else {
      hide Apply;
      var before, e := later[..|later| - 1], later[|later| - 1];
      ActivateRuns(names, events, id, before);
      RunStep(names, base, later);
      ActivateStep(Run(names, base + before), e, id, Stop(id) in before);
      assert later == before + [e];
    }
    FinishedIsClean(Run(names, base + later), Stop(id) in later, Run(names, base + later).tasks[id]);
  }

  lemma FirstActivate(w: World)
    ensures ActivateStory(w, false, ActivateList)
  {
  }

  lemma FinishedIsClean(w: World, stopped: bool, task: Task)
    requires ActivateStory(w, stopped, task)
    ensures task.Finished? ==> forall n :: n in w.names ==> !Outdated(n)
  {
  }

  // ---------- Puts that fail, and progress ----------

  /** A step whose put fails stores nothing. */
  lemma NothingStoredByFailedPut(w: World, id: nat, input: Input, x: Entry)
    requires !input.stored
    ensures x in Apply(w, Step(id, input)).statics ==> x in w.statics
    ensures x in Apply(w, Step(id, input)).shell ==> x in w.shell
  {
    hide Put, Doomed, Owed, Match;
  }

  /** The handler has nothing left to do. */
  ghost predicate Settled(task: Task) {
    task.Answered? || task.AnsweredShell? || task.AnsweredOffline? || task.Finished? || task.Failed?
  }

  /** The references that are still to be looked up, fetched or stored: each counts once per step. */
  ghost function WarmWork(jobs: map<string, WarmJob>): nat {
    |set t | t in jobs && jobs[t].WarmMatch?|
    + |set t | t in jobs && (jobs[t].WarmMatch? || jobs[t].WarmFetch?)|
    + |set t | t in jobs && (jobs[t].WarmMatch? || jobs[t].WarmFetch? || jobs[t].WarmPut?)|
  }

  ghost function AssetWork(assets: map<Url, AssetJob>): nat {
    |set u | u in assets && assets[u].AssetFetch?| + |set u | u in assets && !assets[u].AssetSettled?|
  }

  /** How far a handler has to go: which stage it is in, and how much the stage still holds. */
  ghost function Stage(task: Task): nat {
    match task
    case InstallFetch => 9
    case InstallPut(_) => 8
    case InstallWarm(_) => 7
    case InstallTrim(_) => 6
    case InstallDelete(_) => 5
    case InstallAssets(_) => 1
    case StaticMatch(_) => 5
    case StaticFetch(_) => 4
    case StaticPut(_, _) => 3
    case StaticTrim(_, _) => 2
    case StaticDelete(_, _, _) => 1
    case PublicMatch(_) => 3
    case PublicFetch(_) => 2
    case PublicPut(_, _) => 1
    case NavigateFetch(_) => 2
    case NavigateMatch(_) => 1
    case ActivateList => 2
    case ActivateDelete(_) => 1
    case _ => 0
  }

  ghost function Load(task: Task): nat {
    match task
    case InstallWarm(jobs) => WarmWork(jobs)
    case InstallDelete(doomed) => |doomed|
    case InstallAssets(assets) => AssetWork(assets)
    case StaticDelete(doomed, _, _) => |doomed|
    case ActivateDelete(names) => |names|
    case _ => 0
  }

  ghost predicate Closer(after: Task, before: Task) {
    Stage(after) < Stage(before) || (Stage(after) == Stage(before) && Load(after) < Load(before))
  }

  lemma FewerBy<T>(a: set<T>, b: set<T>, x: T)
    requires x in a && b == a - {x}
    ensures |b| < |a|
  {
    assert a == b + {x};
  }

  lemma WarmProgress(w: World, jobs: map<string, WarmJob>) returns (input: Input)
    requires !WarmSettledAll(jobs)
    ensures StepTask(w, InstallWarm(jobs), input).task.InstallWarm?
    ensures WarmWork(StepTask(w, InstallWarm(jobs), input).task.jobs) < WarmWork(jobs)
  {
    hide Put, Match, Doomed, Owed;
    var t :| t in jobs && !jobs[t].WarmStored? && !jobs[t].WarmSettled?;
    input := Input(None, true, t);
    var after := StepTask(w, InstallWarm(jobs), input).task.jobs;
    assert after == jobs[t := after[t]];
    WarmWorkDrops(jobs, t, after[t]);
  }

  lemma WarmWorkDrops(jobs: map<string, WarmJob>, t: string, job: WarmJob)
    requires t in jobs && (jobs[t].WarmMatch? || jobs[t].WarmFetch? || jobs[t].WarmPut?)
    requires !job.WarmMatch? && (!jobs[t].WarmMatch? ==> job.WarmStored? || job.WarmSettled?)
    requires jobs[t].WarmMatch? ==> !job.WarmPut?
    ensures WarmWork(jobs[t := job]) < WarmWork(jobs)
  {
    var after := jobs[t := job];
    var a, a2 := set x | x in jobs && jobs[x].WarmMatch?, set x | x in after && after[x].WarmMatch?;
    var b := set x | x in jobs && (jobs[x].WarmMatch? || jobs[x].WarmFetch?);
    var b2 := set x | x in after && (after[x].WarmMatch? || after[x].WarmFetch?);
    var d := set x | x in jobs && (jobs[x].WarmMatch? || jobs[x].WarmFetch? || jobs[x].WarmPut?);
    var d2 := set x | x in after && (after[x].WarmMatch? || after[x].WarmFetch? || after[x].WarmPut?);
    SubsetSize(a2, a);
    SubsetSize(b2, b);
    SubsetSize(d2, d);
    if jobs[t].WarmMatch? {
      assert a2 == a - {t};
      FewerBy(a, a2, t);
    } else {
      assert d2 == d - {t};
      FewerBy(d, d2, t);
    }
  }

  lemma AssetProgress(w: World, assets: map<Url, AssetJob>) returns (input: Input)
    requires !AssetsSettledAll(assets)
    ensures StepTask(w, InstallAssets(assets), input).task.InstallAssets?
    ensures AssetWork(StepTask(w, InstallAssets(assets), input).task.assets) < AssetWork(assets)
  {
    hide Put, Match, Doomed, Owed;
    var u :| u in assets && !assets[u].AssetSettled?;
    input := Input(None, true, u);
    var after := StepTask(w, InstallAssets(assets), input).task.assets;
    assert after == assets[u := AssetSettled];
    var a, a2 := set x | x in assets && assets[x].AssetFetch?, set x | x in after && after[x].AssetFetch?;
    var b, b2 := set x | x in assets && !assets[x].AssetSettled?, set x | x in after && !after[x].AssetSettled?;
    SubsetSize(a2, a);
    assert b2 == b - {u};
    FewerBy(b, b2, u);
  }

  lemma InstallProgress(w: World, task: Task) returns (input: Input)
    requires task.InstallWarm? || task.InstallAssets?
    ensures Closer(StepTask(w, task, input).task, task)
  {
    hide StepWarm, StepAsset, Owed, WarmWork, AssetWork;
    input := Input(None, true, "");
    if task.InstallWarm? {
      if !WarmSettledAll(task.jobs) {
        input := WarmProgress(w, task.jobs);
      }
    } else if !AssetsSettledAll(task.assets) {
      input := AssetProgress(w, task.assets);
    }
  }

  lemma DeleteProgress(w: World, task: Task) returns (input: Input)
    requires task.StaticDelete? || task.InstallDelete? || task.ActivateDelete?
    ensures Closer(StepTask(w, task, input).task, task)
  {
    hide Delete, Doomed, StartAssets, AssetWork;
    assert StartAssets().InstallAssets? by { AssetsStart(History([], [], []), 0); }
    input := OneOf(if task.ActivateDelete? then task.names else task.doomed);
  }

  /** Whatever the world looks like, an unsettled handler can take a step that brings it closer to its
      end. */
  lemma Progress(w: World, task: Task) returns (input: Input)
    requires !Settled(task)
    ensures Closer(StepTask(w, task, input).task, task)
  {
    hide Put, Delete, Match, Doomed, Owed, WarmWork, AssetWork, IsAppShell, StepWarm, StepAsset;
    if task.InstallWarm? || task.InstallAssets? {
      input := InstallProgress(w, task);
    } else if task.StaticDelete? || task.InstallDelete? || task.ActivateDelete? {
      input := DeleteProgress(w, task);
    } else {
      input := Input(None, true, "");
    }
  }

  lemma OneOf(s: set<string>) returns (input: Input)
    ensures s != {} ==> input.which in s && |s - {input.which}| < |s|
  {
    input := Input(None, true, "");
    if s != {} {
      var x :| x in s;
      input := Input(None, true, x);
      FewerBy(s, s - {x}, x);
    }
  }

  /** No handler gets stuck: from any world, steps of its own alone bring it to its end. */
  lemma {:induction false} EveryHandlerCanFinish(w: World, id: nat) returns (steps: seq<Event>, end: World)
    requires id in w.tasks
    ensures OnlySteps(steps, id) && end == ApplyAll(w, steps)
    ensures id in end.tasks && Settled(end.tasks[id])
    decreases Stage(w.tasks[id]), Load(w.tasks[id])
  {
    hide StepTask, Stage, Load, OnlySteps;
    if Settled(w.tasks[id]) {
      steps, end := [], w;
      assert OnlySteps([], id) by { NoSteps(id); }
    } else {
      var input := Progress(w, w.tasks[id]);
      var e := Step(id, input);
      TaskAfter(w, e, id);
      CloserIsLess(Apply(w, e).tasks[id], w.tasks[id]);
      var rest;
      rest, end := EveryHandlerCanFinish(Apply(w, e), id);
      steps := [e] + rest;
      OneMoreStep(e, rest, id);
      assert steps[1..] == rest;
    }
  }

  lemma CloserIsLess(after: Task, before: Task)
    requires Closer(after, before)
    ensures Stage(after) < Stage(before) || (Stage(after) == Stage(before) && Load(after) < Load(before))
  {
  }

  lemma NoSteps(id: nat)
    ensures OnlySteps([], id)
  {
  }

  lemma OneMoreStep(e: Event, rest: seq<Event>, id: nat)
    requires e.Step? && e.id == id && OnlySteps(rest, id)
    ensures OnlySteps([e] + rest, id)
  {
  }

  /** The world after several events. */
  ghost function ApplyAll(w: World, events: seq<Event>): World
    decreases events
  {
    if events == [] then w else ApplyAll(Apply(w, events[0]), events[1..])
  }
}
