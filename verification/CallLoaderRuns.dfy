/** What every run of the loader keeps, and where a run ends (public/call-widget/l.js). */
module CallLoaderRuns {
  import opened Options
  import opened Sets
  import opened CallLoader

  /** Every path the loader may ever ask for: the defaults and what the bootstrap names. */
  function Names(bootstrap: Option<Body>): set<File> {
    {REGISTRY, PRESENTATION, RUNTIME}
    + {PathOr(if bootstrap.Some? then bootstrap.value.registry else None, REGISTRY),
       PathOr(if bootstrap.Some? then bootstrap.value.presentation else None, PRESENTATION)}
  }

  ghost predicate Queue(s: State) {
    && s.pending == |s.page.inFlight|
    && (forall sc :: sc in s.page.inFlight ==> sc.path in s.requested)
    && (forall i, j :: 0 <= i < j < |s.page.inFlight| ==> s.page.inFlight[i].path != s.page.inFlight[j].path)
  }

  ghost predicate Scripts(s: State) {
    && Queue(s)
    && s.requested <= Names(s.bootstrap)
    && (s.bootstrap.Some? ==> forall p :: p in ScriptPaths(s.bootstrap) ==> p in s.requested)
  }

  /** The hashed names are given up at most once, when none of them is in flight any more. */
  ghost predicate Fallback(s: State) {
    && s.done.fallbacks == (if s.stale then 1 else 0)
    && (s.stale ==> !s.failed && forall sc :: sc in s.page.inFlight ==> !sc.hashed)
    && (s.failed ==> s.page.inFlight != [])
    && (s.done.hashedFailures > 0 ==> s.failed || s.stale)
    && (s.stale || s.failed ==> s.done.hashedFailures > 0)
  }

  ghost predicate Bootstraps(s: State) {
    && s.page.answersDue + s.page.timers <= 1
    && s.done.requests == 1 + (if s.bootstrapRetried && s.page.timers == 0 then 1 else 0)
    && (s.page.timers > 0 ==> s.bootstrapRetried)
    && (s.bootstrap.Some? ==> s.page.answersDue == 0 && s.page.timers == 0)
  }

  ghost predicate Mounts(s: State) {
    && s.done.mounts == (if s.mounted then 1 else 0)
    && (s.mounted ==> s.bootstrap.Some? && s.page.runtime && s.page.inFlight == [])
    && (s.bootstrap.Some? && s.page.runtime && s.page.inFlight == [] ==> s.mounted)
  }

  /** Script elements made: those of the first round, given up or not, and those of the fixed names. */
  ghost predicate Created(s: State) {
    && |s.requested| <= s.done.created
    && (if s.stale then s.done.created <= 5 + |s.requested| else s.done.created == |s.requested|)
  }

  ghost predicate Inv(s: State) {
    Scripts(s) && Fallback(s) && Bootstraps(s) && Mounts(s) && Created(s)
  }

  lemma NamesFew(bootstrap: Option<Body>, requested: set<File>)
    requires requested <= Names(bootstrap)
    ensures |requested| <= 5
  {
    var named := Names(bootstrap);
    assert named == requested + (named - requested);
    assert |named| <= 5;
  }

  /** `r` is `s` with more scripts asked for, each element named as the build and staleness of `s` say. */
  ghost predicate Asked(s: State, r: State) {
    && r == s.(requested := r.requested, pending := r.pending, page := s.page.(inFlight := r.page.inFlight),
            done := s.done.(created := r.done.created))
    && s.requested <= r.requested && s.page.inFlight <= r.page.inFlight
    && (forall sc :: sc in r.page.inFlight ==> sc in s.page.inFlight || sc.hashed == Hashed(s, sc.path))
    && r.done.created - s.done.created == |r.requested| - |s.requested| == |r.page.inFlight| - |s.page.inFlight|
  }

  lemma AskedTwice(s: State, r: State, q: State)
    requires Asked(s, r) && Asked(r, q)
    ensures Asked(s, q)
  {
  }

  lemma LoadOneQueue(s: State, path: File)
    requires Queue(s)
    ensures Queue(LoadScript(s, path))
  {
    if path !in s.requested {
      assert forall sc :: sc in s.page.inFlight ==> sc.path != path;
    }
  }

  lemma LoadOne(s: State, path: File)
    requires Queue(s)
    ensures Queue(LoadScript(s, path)) && Asked(s, LoadScript(s, path))
    ensures LoadScript(s, path).requested == s.requested + {path}
  {
    hide Queue, Hashed;
    LoadOneQueue(s, path);
    var r := LoadScript(s, path);
    if path !in s.requested {
      assert |r.requested| == |s.requested| + 1;
      var made := Script(path, Hashed(s, path));
      assert r.page.inFlight == s.page.inFlight + [made];
      assert forall sc :: sc in r.page.inFlight ==> sc in s.page.inFlight || sc == made;
    }
  }

  /** What LoadScripts does at once: exactly the paths not yet in the page get an element; nothing else changes. */
  lemma {:induction false} LoadAdds(s: State, paths: seq<File>)
    requires Queue(s)
    ensures var r := LoadScripts(s, paths);
      Queue(r) && Asked(s, r) && r.requested == s.requested + (set p | p in paths)
    decreases paths
  {
    if paths != [] {
      assert (set p | p in paths) == {paths[0]} + (set p | p in paths[1..]);
      LoadOne(s, paths[0]);
      LoadAdds(LoadScript(s, paths[0]), paths[1..]);
      AskedTwice(s, LoadScript(s, paths[0]), LoadScripts(s, paths));
    }
  }

  /** Files already asked for are not asked for again. */
  lemma {:induction false} LoadNothing(s: State, paths: seq<File>)
    requires forall p :: p in paths ==> p in s.requested
    ensures LoadScripts(s, paths) == s
    decreases paths
  {
    if paths != [] {
      LoadNothing(s, paths[1..]);
    }
  }

  /** Starting the files keeps everything but the mount, which is left to tryMount. */
  lemma StartFilesKeeps(s: State)
    requires Queue(s)
    requires s.requested <= Names(s.bootstrap) && Fallback(s) && Created(s)
    ensures var r := StartFiles(s);
      && Scripts(r) && Fallback(r) && Created(r) && Asked(s, r)
      && (s.requested == {} ==> r.page.inFlight != [])
  {
    LoadAdds(s, ScriptPaths(s.bootstrap));
    var r := StartFiles(s);
    var paths := ScriptPaths(s.bootstrap);
    assert paths[2] in paths;
    assert forall p :: p in paths ==> p in Names(s.bootstrap);
    if s.requested == {} {
      assert RUNTIME in r.requested;
      assert r.requested != s.requested;
      assert |r.requested| > 0;
    }
  }

  lemma RemoveKeeps(s: State, i: nat)
    requires Scripts(s) && i < |s.page.inFlight|
    ensures var r := Remove(s, i);
      && |r.page.inFlight| == |s.page.inFlight| - 1
      && (forall sc :: sc in r.page.inFlight ==> sc in s.page.inFlight)
      && (forall j, k :: 0 <= j < k < |r.page.inFlight| ==> r.page.inFlight[j].path != r.page.inFlight[k].path)
  {
  }

  /** The last script of the first round left, and a hashed one is missing: the fixed names are asked for. */
  lemma FallbackKeeps(s: State, left: State)
    requires Inv(s) && !s.stale && left.page.inFlight == []
    requires left == s.(page := left.page, failed := true, done := left.done)
    requires left.page == s.page.(inFlight := []) && s.page.inFlight != []
    requires left.done == s.done.(hashedFailures := left.done.hashedFailures)
    requires left.done.hashedFailures > 0
    ensures Inv(Settle(left.(pending := 1)))
  {
    hide LoadScripts;
    NamesFew(s.bootstrap, s.requested);
    var s' := left.(pending := 0, stale := true, failed := false, requested := {},
                    done := left.done.(fallbacks := left.done.fallbacks + 1));
    StartFilesKeeps(s');
    assert Settle(left.(pending := 1)) == StartFiles(s');
  }

  lemma LeftFew(s: State, i: nat)
    requires Scripts(s) && i < |s.page.inFlight|
    ensures Scripts(Remove(s, i).(pending := s.pending - 1))
  {
    RemoveKeeps(s, i);
  }

  /** A reachable state whose script `i` has just loaded or failed: settling it restores the invariant. */
  lemma SettleKeeps(s: State, i: nat, failed: bool)
    requires Inv(s) && i < |s.page.inFlight| && (failed ==> s.page.inFlight[i].hashed)
    ensures var left := Remove(s, i); Inv(Settle(if failed then HashedFailed(left) else left))
  {
    hide LoadScripts, ScriptPaths, Names;
    var left := if failed then HashedFailed(Remove(s, i)) else Remove(s, i);
    if left.pending - 1 == 0 && left.failed && !left.stale {
      LastLeaves(s, i, failed);
      FallbackKeeps(s, left);
    } else {
      OneLeaves(s, i, failed);
    }
  }

  lemma LastLeaves(s: State, i: nat, failed: bool)
    requires Inv(s) && i < |s.page.inFlight| && (failed ==> s.page.inFlight[i].hashed)
    requires var left := if failed then HashedFailed(Remove(s, i)) else Remove(s, i);
      left.pending == 1 && left.failed && !left.stale
    ensures var left := if failed then HashedFailed(Remove(s, i)) else Remove(s, i);
      left.page.inFlight == [] && left.done.hashedFailures > 0 && !s.stale && left == left.(pending := 1)
  {
    hide Names, ScriptPaths;
  }

  lemma OneLeaves(s: State, i: nat, failed: bool)
    requires Inv(s) && i < |s.page.inFlight| && (failed ==> s.page.inFlight[i].hashed)
    requires var left := if failed then HashedFailed(Remove(s, i)) else Remove(s, i);
      left.pending != 1 || !left.failed || left.stale
    ensures var left := if failed then HashedFailed(Remove(s, i)) else Remove(s, i);
      Inv(Settle(left))
  {
    hide LoadScripts, ScriptPaths, Names;
    RemoveKeeps(s, i);
    LeftFew(s, i);
    assert s.page.inFlight[i] in s.page.inFlight;
  }

  lemma StartKeeps(build: Build, pageLoaded: bool, off: bool)
    ensures Inv(Start(build, pageLoaded, off))
  {
    StartFilesKeeps(Blank(build, pageLoaded, off));
  }

  lemma PageLoadKeeps(s: State)
    requires Inv(s)
    ensures Inv(OnPageLoad(s))
  {
    hide LoadScripts;
    var s' := s.(pageLoaded := true);
    StartFilesKeeps(s');
    if s.bootstrap.Some? {
      LoadNothing(s', ScriptPaths(s.bootstrap));
    }
  }

  /** Trying to mount restores what only it decides. */
  lemma MountKeeps(s: State)
    requires Scripts(s) && Fallback(s) && Bootstraps(s) && Created(s)
    requires s.done.mounts == if s.mounted then 1 else 0
    requires s.mounted ==> s.bootstrap.Some? && s.page.runtime && s.page.inFlight == []
    ensures Inv(TryMount(s))
  {
    hide Names;
  }

  lemma ReadyKeeps(s: State, r: Response)
    requires Inv(s) && s.page.answersDue > 0 && Ready(r)
    ensures Inv(OnAnswer(s, r))
  {
    hide LoadScripts, TryMount;
    var s' := s.(page := s.page.(answersDue := s.page.answersDue - 1), bootstrap := r.body, off := false);
    assert s'.requested <= Names(s'.bootstrap);
    StartFilesKeeps(s');
    MountKeeps(StartFiles(s'));
  }

  lemma AnswerKeeps(s: State, r: Response)
    requires Inv(s) && s.page.answersDue > 0
    ensures Inv(OnAnswer(s, r))
  {
    hide LoadScripts, Names, ScriptPaths, StartFiles;
    if Ready(r) {
      ReadyKeeps(s, r);
    }
  }

  lemma ApplyKeeps(s: State, e: Event)
    requires Inv(s)
    ensures Inv(Apply(s, e))
  {
    if Enabled(s, e) {
      match e
      case PageLoads =>
        PageLoadKeeps(s);
      case Executes(i) =>
      case Loads(i) =>
        SettleKeeps(s, i, false);
      case Fails(i) =>
        SettleKeeps(s, i, s.page.inFlight[i].hashed);
      case Answers(r) =>
        AnswerKeeps(s, r);
      case TimerFires =>
    }
  }

  lemma {:induction false} RunKeeps(s: State, events: seq<Event>)
    requires Inv(s)
    ensures Inv(Run(s, events))
  {
    if events != [] {
      RunKeeps(s, events[..|events| - 1]);
      ApplyKeeps(Run(s, events[..|events| - 1]), events[|events| - 1]);
    }
  }

  /** Under every interleaving: the counter equals the scripts in flight; the fixed names are turned to at most
      once, and no hashed script is in flight afterwards; the bootstrap is asked for at most twice; the widget
      mounts at most once, with a bootstrap and nothing in flight; no more than ten script elements are made. */
  lemma EveryRun(build: Build, pageLoaded: bool, off: bool, events: seq<Event>)
    ensures var s := Run(Start(build, pageLoaded, off), events);
      && s.pending == |s.page.inFlight|
      && s.done.fallbacks <= 1 && (s.stale ==> forall sc :: sc in s.page.inFlight ==> !sc.hashed)
      && 1 <= s.done.requests <= 2
      && s.done.mounts <= 1 && (s.mounted ==> s.bootstrap.Some? && s.page.runtime && s.page.inFlight == [])
      && s.done.created <= 10
  {
    StartKeeps(build, pageLoaded, off);
    RunKeeps(Start(build, pageLoaded, off), events);
    var s := Run(Start(build, pageLoaded, off), events);
    NamesFew(s.bootstrap, s.requested);
  }

  ghost predicate Quiescent(s: State) {
    s.page.inFlight == [] && s.page.answersDue == 0 && s.page.timers == 0
  }

  /** Where a run comes to rest with an accepted bootstrap, all its files were asked for; if the runtime is there the
      widget is mounted, exactly once; and if a hashed file was missing, the fixed names were tried. */
  lemma AtRest(build: Build, pageLoaded: bool, off: bool, events: seq<Event>)
    ensures var s := Run(Start(build, pageLoaded, off), events);
      Quiescent(s) ==>
        && (s.bootstrap.Some? ==>
              && (s.bootstrap.value.registry.Some? ==> s.bootstrap.value.registry.value in s.requested)
              && (s.bootstrap.value.registry.None? ==> 0 in s.requested)
              && (s.bootstrap.value.presentation.Some? ==> s.bootstrap.value.presentation.value in s.requested)
              && (s.bootstrap.value.presentation.None? ==> 1 in s.requested)
              && 2 in s.requested)
        && (s.done.mounts == 1 <==> s.bootstrap.Some? && s.page.runtime)
        && (s.stale <==> s.done.hashedFailures > 0)
  {
    hide Run;
    StartKeeps(build, pageLoaded, off);
    RunKeeps(Start(build, pageLoaded, off), events);
    var s := Run(Start(build, pageLoaded, off), events);
    if s.bootstrap.Some? {
      var paths := ScriptPaths(s.bootstrap);
      assert paths[0] in paths && paths[1] in paths && paths[2] in paths;
    }
  }

  // ----- every run comes to rest

  /** What a state can still spend: elements and requests it may make, and what is open. */
  ghost function Budget(s: State): int {
    2 * (10 - s.done.created) + |s.page.inFlight| + (if s.page.runtime then 0 else 1) + (if s.pageLoaded then 0 else 1)
    + 3 * (2 - s.done.requests) + 2 * s.page.answersDue + s.page.timers
  }

  lemma LoadSpends(s: State, paths: seq<File>)
    requires Scripts(s)
    ensures Budget(LoadScripts(s, paths)) <= Budget(s)
  {
    LoadAdds(s, paths);
    assert s.requested <= LoadScripts(s, paths).requested;
    SubsetSize(s.requested, LoadScripts(s, paths).requested);
  }

  lemma SettleSpends(s: State)
    requires Queue(s.(pending := s.pending - 1))
    ensures Budget(Settle(s)) <= Budget(s)
  {
    var s' := s.(pending := s.pending - 1);
    if s'.pending == 0 && s'.failed && !s'.stale {
      var s'' := s'.(stale := true, failed := false, requested := {},
          done := s.done.(fallbacks := s.done.fallbacks + 1));
      LoadAdds(s'', ScriptPaths(s'.bootstrap));
    }
  }

  lemma PageLoadSpends(s: State)
    requires Scripts(s) && !s.pageLoaded
    ensures Budget(OnPageLoad(s)) < Budget(s)
  {
    hide LoadScripts, ScriptPaths, Names;
    LoadSpends(s.(pageLoaded := true), ScriptPaths(s.bootstrap));
  }

  lemma ScriptSpends(s: State, i: nat)
    requires Scripts(s) && i < |s.page.inFlight|
    ensures Budget(OnLoad(s, i)) < Budget(s) && Budget(OnError(s, i)) < Budget(s)
  {
    hide Settle, Names, ScriptPaths;
    LeftFew(s, i);
    SettleSpends(Remove(s, i));
    SettleSpends(HashedFailed(Remove(s, i)));
  }

  lemma MountSpends(s: State)
    ensures Budget(TryMount(s)) == Budget(s)
  {
  }

  lemma ReadySpends(s: State, r: Response)
    requires Scripts(s) && s.page.answersDue > 0 && Ready(r)
    ensures Budget(OnAnswer(s, r)) < Budget(s)
  {
    hide LoadScripts, TryMount, ScriptPaths, Names;
    var s' := s.(page := s.page.(answersDue := s.page.answersDue - 1), bootstrap := r.body, off := false);
    LoadAdds(s', ScriptPaths(s'.bootstrap));
    SubsetSize(s'.requested, StartFiles(s').requested);
    MountSpends(StartFiles(s'));
  }

  lemma AnswerSpends(s: State, r: Response)
    requires Scripts(s) && s.page.answersDue > 0
    ensures Budget(OnAnswer(s, r)) < Budget(s)
  {
    hide Scripts, OnAnswer;
    if Ready(r) {
      ReadySpends(s, r);
    } else {
      FailureSpends(s, r);
    }
  }

  lemma FailureSpends(s: State, r: Response)
    requires s.page.answersDue > 0 && !Ready(r)
    ensures Budget(OnAnswer(s, r)) < Budget(s)
  {
    FailurePage(s, r);
    hide OnAnswer, Ready;
  }

  lemma FailurePage(s: State, r: Response)
    requires s.page.answersDue > 0 && !Ready(r)
    ensures var q := OnAnswer(s, r);
      && q.done == s.done && q.pageLoaded == s.pageLoaded
      && q.page.inFlight == s.page.inFlight && q.page.runtime == s.page.runtime
      && q.page.answersDue == s.page.answersDue - 1 && q.page.timers <= s.page.timers + 1
  {
    hide StartFiles, TryMount, Ready, Transient;
  }

  lemma TimerSpends(s: State)
    requires s.page.timers > 0
    ensures Budget(OnTimer(s)) < Budget(s)
  {
  }

  /** Every event that can happen spends some of the budget, so no run goes on for ever. */
  lemma EventSpends(s: State, e: Event)
    requires Inv(s) && Enabled(s, e)
    ensures Budget(Apply(s, e)) < Budget(s)
  {
    hide Scripts, Fallback, Bootstraps, Mounts, Created, OnPageLoad, OnLoad, OnError, OnAnswer, OnTimer;
    match e
    case PageLoads => PageLoadSpends(s);
    case Executes(i) =>
    case Loads(i) => ScriptSpends(s, i);
    case Fails(i) => ScriptSpends(s, i);
    case Answers(r) => AnswerSpends(s, r);
    case TimerFires => TimerSpends(s);
  }

  /** All the events of a run happened: none was an event the page could not deliver. */
  ghost predicate Happened(s: State, events: seq<Event>) {
    events == []
    || (Happened(s, events[..|events| - 1]) && Enabled(Run(s, events[..|events| - 1]), events[|events| - 1]))
  }

  lemma {:induction false} RunSpends(s: State, events: seq<Event>)
    requires Inv(s) && Happened(s, events)
    ensures Budget(Run(s, events)) + |events| <= Budget(s)
  {
    if events != [] {
      RunSpends(s, events[..|events| - 1]);
      RunKeeps(s, events[..|events| - 1]);
      EventSpends(Run(s, events[..|events| - 1]), events[|events| - 1]);
    }
  }

  /** No run is longer than 27 events; the loader cannot keep asking. */
  lemma RunsEnd(build: Build, pageLoaded: bool, off: bool, events: seq<Event>)
    requires Happened(Start(build, pageLoaded, off), events)
    ensures |events| <= 27
  {
    var s := Start(build, pageLoaded, off);
    StartKeeps(build, pageLoaded, off);
    LoadAdds(Blank(build, pageLoaded, off), ScriptPaths(None));
    SubsetSize({}, StartFiles(Blank(build, pageLoaded, off)).requested);
    RunSpends(s, events);
    RunKeeps(s, events);
    NamesFew(Run(s, events).bootstrap, Run(s, events).requested);
  }
}
