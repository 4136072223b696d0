/** What a run of the loader comes to in terms of what happened: the answers to its bootstrap requests, the page's load
    and the script elements it made (public/call-widget/l.js). */
module LoaderHistory {
  import opened Options
  import opened CallLoader
  import opened CallLoaderRuns

  // ----- the answers

  /** The answers the page delivered, in order. */
  function Answered(s: State, events: seq<Event>): seq<Response> {
    if events == [] then []
    else
      var before, e := Run(s, events[..|events| - 1]), events[|events| - 1];
      Answered(s, events[..|events| - 1]) + if e.Answers? && before.page.answersDue > 0 then [e.r] else []
  }

  predicate Accepted(r: Response) {
    r.ok && r.body.Some? && r.body.value.accepted
  }

  /** No answer, a rate limit or a server error: it may pass. */
  predicate Passing(r: Response) {
    !Accepted(r) && (r.status == 0 || r.status == 429 || r.status >= 500)
  }

  /** The widget is switched off, unknown or not allowed here: JSON that is no such failure and no bootstrap. */
  predicate Refusal(r: Response) {
    !Accepted(r) && !Passing(r) && r.body.Some?
  }

  /** What the answers so far have left: whether the widget is off, the bootstrap kept, and the requests. */
  ghost predicate Heard(s: State, off: bool, answers: seq<Response>) {
    && s.done.requests == |answers| + s.page.answersDue
    && s.bootstrap == (if answers != [] && Accepted(answers[|answers| - 1]) then answers[|answers| - 1].body else None)
    && (s.bootstrapRetried <==> answers != [] && Passing(answers[0]))
    && s.off == (if answers == [] then off
                 else if Accepted(answers[|answers| - 1]) then false
                 else if Refusal(answers[|answers| - 1]) then true else off)
  }

  /** Making elements and mounting leave what was heard alone. */
  lemma FilesLeaveHeard(s: State, paths: seq<File>)
    requires Queue(s)
    ensures var r := LoadScripts(s, paths);
      && r.page.answersDue == s.page.answersDue && r.done.requests == s.done.requests
      && r.bootstrap == s.bootstrap && r.bootstrapRetried == s.bootstrapRetried && r.off == s.off
  {
    LoadAdds(s, paths);
  }

  lemma SettleLeavesHeard(s: State)
    requires Queue(s.(pending := s.pending - 1))
    ensures var r := Settle(s);
      && r.page.answersDue == s.page.answersDue && r.done.requests == s.done.requests
      && r.bootstrap == s.bootstrap && r.bootstrapRetried == s.bootstrapRetried && r.off == s.off
  {
    hide LoadScripts, ScriptPaths;
    var s' := s.(pending := s.pending - 1, stale := true, failed := false, requested := {},
                 done := s.done.(fallbacks := s.done.fallbacks + 1));
    if s.pending == 1 && s.failed && !s.stale {
      FilesLeaveHeard(s', ScriptPaths(s'.bootstrap));
    }
  }

  lemma AnswerHeard(s: State, off: bool, answers: seq<Response>, r: Response)
    requires Inv(s) && Heard(s, off, answers) && s.page.answersDue > 0
    ensures Heard(OnAnswer(s, r), off, answers + [r])
  {
    hide LoadScripts, ScriptPaths;
    var s' := s.(page := s.page.(answersDue := s.page.answersDue - 1), bootstrap := r.body, off := false);
    if Ready(r) {
      FilesLeaveHeard(s', ScriptPaths(s'.bootstrap));
    }
  }

  lemma PageLoadHeard(s: State, off: bool, answers: seq<Response>)
    requires Queue(s) && Heard(s, off, answers)
    ensures Heard(OnPageLoad(s), off, answers)
  {
    hide LoadScripts, ScriptPaths, Queue, Heard;
    assert Queue(s.(pageLoaded := true)) by { LoadedQueue(s); }
    FilesLeaveHeard(s.(pageLoaded := true), ScriptPaths(s.bootstrap));
    SameHeard(s, OnPageLoad(s), off, answers);
  }

  lemma LoadedQueue(s: State)
    requires Queue(s)
    ensures Queue(s.(pageLoaded := true))
  {
  }

  lemma ScriptHeard(s: State, off: bool, answers: seq<Response>, i: nat)
    requires Scripts(s) && Heard(s, off, answers) && i < |s.page.inFlight|
    ensures Heard(OnLoad(s, i), off, answers) && Heard(OnError(s, i), off, answers)
  {
    hide Settle, Heard, Names, ScriptPaths;
    LeftFew(s, i);
    SettleLeavesHeard(Remove(s, i));
    SettleLeavesHeard(HashedFailed(Remove(s, i)));
    SameHeard(s, OnLoad(s, i), off, answers);
    SameHeard(s, OnError(s, i), off, answers);
  }

  lemma ScriptsQueue(s: State)
    requires Scripts(s)
    ensures Queue(s)
  {
  }

  lemma EventHeard(s: State, off: bool, answers: seq<Response>, e: Event)
    requires Inv(s) && Heard(s, off, answers)
    ensures Heard(Apply(s, e), off, answers + if e.Answers? && s.page.answersDue > 0 then [e.r] else [])
  {
    hide Heard, Scripts, Queue, OnPageLoad, OnLoad, OnError, OnAnswer, OnTimer, Fallback, Bootstraps, Mounts, Created;
    assert answers + [] == answers;
    ScriptsQueue(s);
    if Enabled(s, e) {
      match e
      case PageLoads => PageLoadHeard(s, off, answers);
      case Executes(i) => SameHeard(s, Apply(s, e), off, answers);
      case Loads(i) => ScriptHeard(s, off, answers, i);
      case Fails(i) => ScriptHeard(s, off, answers, i);
      case Answers(r) => AnswerHeard(s, off, answers, r);
      case TimerFires => TimerHeard(s, off, answers);
    }
  }

  lemma SameHeard(s: State, r: State, off: bool, answers: seq<Response>)
    requires Heard(s, off, answers)
    requires r.page.answersDue == s.page.answersDue && r.done.requests == s.done.requests
    requires r.bootstrap == s.bootstrap && r.bootstrapRetried == s.bootstrapRetried && r.off == s.off
    ensures Heard(r, off, answers)
  {
  }

  lemma TimerHeard(s: State, off: bool, answers: seq<Response>)
    requires Heard(s, off, answers) && s.page.timers > 0
    ensures Heard(OnTimer(s), off, answers)
  {
  }

  lemma StartHeard(build: Build, pageLoaded: bool, off: bool)
    ensures Heard(Start(build, pageLoaded, off), off, [])
  {
    hide LoadScripts, ScriptPaths;
    FilesLeaveHeard(Blank(build, pageLoaded, off), ScriptPaths(None));
  }

  lemma {:induction false} RunHeard(build: Build, pageLoaded: bool, off: bool, events: seq<Event>)
    ensures var s := Start(build, pageLoaded, off);
      Inv(Run(s, events)) && Heard(Run(s, events), off, Answered(s, events))
  {
    hide Heard, Inv;
    var s := Start(build, pageLoaded, off);
    StartKeeps(build, pageLoaded, off);
    RunKeeps(s, events);
    if events == [] {
      StartHeard(build, pageLoaded, off);
    } else {
      var front := events[..|events| - 1];
      RunHeard(build, pageLoaded, off, front);
      EventHeard(Run(s, front), off, Answered(s, front), events[|events| - 1]);
    }
  }

  /** Over every run: the bootstrap kept is the body of the last answer, when that was an accepted one; the second
      request is made for a first answer that may pass, and only then; and the browser remembers the widget as off
      exactly when the last answer refused it, or nothing since told otherwise. */
  lemma BootstrapHeard(build: Build, pageLoaded: bool, off: bool, events: seq<Event>)
    ensures var start := Start(build, pageLoaded, off);
      var s, answers := Run(start, events), Answered(start, events);
      && |answers| <= 2 && s.done.requests == |answers| + s.page.answersDue
      && (s.bootstrapRetried <==> answers != [] && Passing(answers[0]))
      && s.done.requests == 1 + (if s.bootstrapRetried && s.page.timers == 0 then 1 else 0)
      && s.bootstrap ==
           (if answers != [] && Accepted(answers[|answers| - 1]) then answers[|answers| - 1].body else None)
      && s.off == (if answers == [] then off
                   else if Accepted(answers[|answers| - 1]) then false
                   else if Refusal(answers[|answers| - 1]) then true else off)
  {
    hide Accepted, Passing, Refusal, Run, Answered, Scripts, Fallback, Mounts, Created;
    RunHeard(build, pageLoaded, off, events);
  }

  // ----- the files

  /** The page had loaded, or came to load, while the browser did not know the widget as off; a build starts its files
      then. */
  ghost predicate Started(s: State, events: seq<Event>) {
    if events == [] then s.build.Build? && s.pageLoaded && !s.off
    else
      var front := events[..|events| - 1];
      || Started(s, front)
      || (events[|events| - 1].PageLoads? && s.build.Build? && !Run(s, front).pageLoaded && !Run(s, front).off)
  }

  /** Until a bootstrap is kept, the three default files are asked for or none; and every element on its way is the
      build's hashed copy when it has one and no hashed one failed. */
  ghost predicate Asking(s: State, build: Build, started: bool) {
    && s.build == build
    && (s.bootstrap.None? ==> s.requested == if started then {0, 1, 2} else {})
    && (forall sc :: sc in s.page.inFlight ==>
          (sc.hashed <==> build.Build? && sc.path in build.files && !s.stale))
  }

  lemma DefaultFiles(s: State)
    requires Queue(s) && s.bootstrap.None? && s.requested <= {0, 1, 2}
    ensures StartFiles(s).requested == {0, 1, 2} && StartFiles(s).bootstrap.None?
  {
    hide LoadScripts, Queue;
    LoadAdds(s, ScriptPaths(s.bootstrap));
    assert ScriptPaths(s.bootstrap) == [0, 1, 2];
    assert (set p | p in [0, 1, 2]) == {0, 1, 2};
  }

  lemma StartFilesAsking(s: State, build: Build, started: bool)
    requires Queue(s) && Asking(s, build, started)
    ensures Asking(StartFiles(s), build, true)
  {
    hide LoadScripts, ScriptPaths, Queue;
    LoadAdds(s, ScriptPaths(s.bootstrap));
    if s.bootstrap.None? {
      DefaultFiles(s);
    }
  }

  lemma SettleAsking(s: State, build: Build, started: bool)
    requires Queue(s.(pending := s.pending - 1)) && Asking(s, build, started)
    requires s.failed ==> started || s.bootstrap.Some?
    ensures Asking(Settle(s), build, started)
  {
    hide LoadScripts, ScriptPaths;
    if s.pending == 1 && s.failed && !s.stale {
      var s' := s.(pending := 0, stale := true, failed := false, requested := {},
                   done := s.done.(fallbacks := s.done.fallbacks + 1));
      LoadAdds(s', ScriptPaths(s'.bootstrap));
      if s.bootstrap.None? {
        DefaultFiles(s');
      }
      assert Settle(s) == StartFiles(s');
    }
  }

  lemma AcceptedAsking(s: State, build: Build, started: bool, r: Response)
    requires Queue(s) && Asking(s, build, started) && s.page.answersDue > 0 && Ready(r)
    ensures Asking(OnAnswer(s, r), build, started)
  {
    hide LoadScripts, ScriptPaths, Queue;
    var s' := s.(page := s.page.(answersDue := s.page.answersDue - 1), bootstrap := r.body, off := false);
    assert Queue(s') by { SameQueue(s, s'); }
    LoadAdds(s', ScriptPaths(s'.bootstrap));
  }

  lemma SameQueue(s: State, r: State)
    requires Queue(s) && r.pending == s.pending && r.requested == s.requested && r.page.inFlight == s.page.inFlight
    ensures Queue(r)
  {
  }

  lemma AnswerAsking(s: State, build: Build, started: bool, r: Response)
    requires Queue(s) && Asking(s, build, started) && s.page.answersDue > 0
    ensures Asking(OnAnswer(s, r), build, started)
  {
    if Ready(r) {
      AcceptedAsking(s, build, started, r);
    } else {
      hide StartFiles, TryMount, Queue, Asking;
      SameAsking(s, OnAnswer(s, r), build, started);
    }
  }

  lemma RemovedAsking(s: State, i: nat, build: Build, started: bool)
    requires Inv(s) && Asking(s, build, started) && i < |s.page.inFlight|
    ensures Asking(Remove(s, i), build, started) && Queue(Remove(s, i).(pending := s.pending - 1))
    ensures s.bootstrap.None? ==> started
  {
    hide Fallback, Bootstraps, Mounts, Created;
    RemoveKeeps(s, i);
    LeftFew(s, i);
    assert s.page.inFlight[i] in s.page.inFlight;
  }

  lemma PageLoadAsking(s: State, build: Build, started: bool)
    requires Inv(s) && Asking(s, build, started) && !s.pageLoaded
    ensures Asking(OnPageLoad(s), build, started || (build.Build? && !s.off))
  {
    hide StartFiles, Asking, Inv, Queue;
    AskingOf(s, build, started);
    SameAsking(s, s.(pageLoaded := true), build, started);
    if s.build.Build? && !s.off {
      StartFilesAsking(s.(pageLoaded := true), build, started);
    }
  }

  lemma ScriptAsking(s: State, build: Build, started: bool, i: nat)
    requires Inv(s) && Asking(s, build, started) && i < |s.page.inFlight|
    ensures Asking(OnLoad(s, i), build, started) && Asking(OnError(s, i), build, started)
  {
    hide Settle, Asking, Inv, Queue;
    RemovedAsking(s, i, build, started);
    SettleAsking(Remove(s, i), build, started);
    SameAsking(Remove(s, i), HashedFailed(Remove(s, i)), build, started);
    FailedQueue(Remove(s, i));
    SettleAsking(HashedFailed(Remove(s, i)), build, started);
  }

  lemma FailedQueue(s: State)
    requires Queue(s.(pending := s.pending - 1))
    ensures Queue(HashedFailed(s).(pending := s.pending - 1))
  {
  }

  lemma EventAsking(s: State, build: Build, started: bool, e: Event)
    requires Inv(s) && Asking(s, build, started)
    ensures Asking(Apply(s, e), build, started || (e.PageLoads? && build.Build? && !s.pageLoaded && !s.off))
  {
    hide Asking, Inv, Queue, OnPageLoad, OnLoad, OnError, OnAnswer, OnTimer;
    AskingOf(s, build, started);
    if Enabled(s, e) {
      match e
      case PageLoads => PageLoadAsking(s, build, started);
      case Executes(i) => SameAsking(s, Apply(s, e), build, started);
      case Loads(i) => ScriptAsking(s, build, started, i);
      case Fails(i) => ScriptAsking(s, build, started, i);
      case Answers(r) => AnswerAsking(s, build, started, r);
      case TimerFires => TimerAsking(s, build, started);
    }
  }

  lemma TimerAsking(s: State, build: Build, started: bool)
    requires Asking(s, build, started) && s.page.timers > 0
    ensures Asking(OnTimer(s), build, started)
  {
    hide Asking;
    SameAsking(s, OnTimer(s), build, started);
  }

  lemma AskingOf(s: State, build: Build, started: bool)
    requires Inv(s) && Asking(s, build, started)
    ensures s.build == build && Queue(s) && Queue(s.(pageLoaded := true))
  {
  }

  lemma SameAsking(s: State, r: State, build: Build, started: bool)
    requires Asking(s, build, started)
    requires r.build == s.build && r.bootstrap == s.bootstrap && r.requested == s.requested && r.stale == s.stale
    requires r.page.inFlight == s.page.inFlight
    ensures Asking(r, build, started)
  {
  }

  lemma StartAsking(build: Build, pageLoaded: bool, off: bool)
    ensures Asking(Start(build, pageLoaded, off), build, build.Build? && pageLoaded && !off)
    ensures var s := Start(build, pageLoaded, off); s.build == build && s.pageLoaded == pageLoaded && s.off == off
  {
    hide LoadScripts, ScriptPaths, StartFiles;
    var blank := Blank(build, pageLoaded, off);
    assert Asking(blank, build, false);
    StartFilesAsking(blank, build, false);
    StartFilesSame(blank);
  }

  lemma StartFilesSame(s: State)
    requires Queue(s)
    ensures var r := StartFiles(s); r.build == s.build && r.pageLoaded == s.pageLoaded && r.off == s.off
  {
    hide LoadScripts;
    LoadAdds(s, ScriptPaths(s.bootstrap));
  }

  lemma {:induction false} RunAsking(build: Build, pageLoaded: bool, off: bool, events: seq<Event>)
    ensures var s := Start(build, pageLoaded, off);
      Inv(Run(s, events)) && Asking(Run(s, events), build, Started(s, events))
  {
    hide Asking, Inv;
    var s := Start(build, pageLoaded, off);
    StartKeeps(build, pageLoaded, off);
    RunKeeps(s, events);
    StartAsking(build, pageLoaded, off);
    if events != [] {
      var front := events[..|events| - 1];
      RunAsking(build, pageLoaded, off, front);
      EventAsking(Run(s, front), build, Started(s, front), events[|events| - 1]);
    }
  }

  /** Over every run: without a bootstrap the three default files are asked for once started, and none before; with one,
      the registry and the presentation it names, the default for each it does not name, and the runtime; and an element
      on its way is hashed exactly when the build has a hashed copy and none has failed. */
  lemma FilesAsked(build: Build, pageLoaded: bool, off: bool, events: seq<Event>)
    ensures var s := Run(Start(build, pageLoaded, off), events);
      && (s.bootstrap.None? ==> s.requested == if Started(Start(build, pageLoaded, off), events) then {0, 1, 2} else {})
      && (s.bootstrap.Some? ==>
            && 2 in s.requested
            && (s.bootstrap.value.registry.None? ==> 0 in s.requested)
            && (s.bootstrap.value.presentation.None? ==> 1 in s.requested))
      && (forall p :: s.bootstrap.Some? && s.bootstrap.value.registry == Some(p) ==> p in s.requested)
      && (forall p :: s.bootstrap.Some? && s.bootstrap.value.presentation == Some(p) ==> p in s.requested)
      && (forall sc :: sc in s.page.inFlight ==>
            && sc.path in s.requested
            && (sc.hashed <==> build.Build? && sc.path in build.files && !s.stale))
  {
    hide Run, Started, Fallback, Bootstraps, Mounts, Created;
    RunAsking(build, pageLoaded, off, events);
    var s := Run(Start(build, pageLoaded, off), events);
    if s.bootstrap.Some? {
      var paths := ScriptPaths(s.bootstrap);
      assert paths[0] in paths && paths[1] in paths && paths[2] in paths;
    }
  }

  // ----- their order

  /** The registry, the presentation and the runtime, without those already asked for. */
  function Missing(had: set<File>, registry: File, presentation: File): seq<File> {
    (if registry in had then [] else [registry])
    + (if presentation in had || presentation == registry then [] else [presentation])
    + (if 2 in had || registry == 2 || presentation == 2 then [] else [2])
  }

  function NamedOr(name: Option<File>, usual: File): File {
    if name.Some? then name.value else usual
  }

  /** `more` elements stand behind those of `s`, for these paths in this order. */
  ghost predicate Behind(s: State, r: State, more: seq<File>) {
    && |r.page.inFlight| == |s.page.inFlight| + |more| && s.page.inFlight <= r.page.inFlight
    && forall i :: 0 <= i < |more| ==> r.page.inFlight[|s.page.inFlight| + i].path == more[i]
  }

  lemma LoadBehind(s: State, r: State, before: seq<File>, path: File)
    requires Behind(s, r, before)
    ensures Behind(s, LoadScript(r, path), before + if path in r.requested then [] else [path])
  {
    assert before + [] == before;
  }

  lemma LoadThree(s: State, a: File, b: File, c: File)
    ensures LoadScripts(s, [a, b, c]) == LoadScript(LoadScript(LoadScript(s, a), b), c)
  {
    hide LoadScript;
    assert [a, b, c][1..] == [b, c] && [b, c][1..] == [c] && [c][1..] == [];
    assert LoadScripts(s, [a, b, c]) == LoadScripts(LoadScript(s, a), [b, c]);
    assert LoadScripts(LoadScript(s, a), [b, c]) == LoadScripts(LoadScript(LoadScript(s, a), b), [c]);
    var two := LoadScript(LoadScript(s, a), b);
    assert LoadScripts(two, [c]) == LoadScripts(LoadScript(two, c), []);
  }

  lemma NothingBehind(s: State)
    ensures Behind(s, s, [])
  {
  }

  lemma LoadRequests(s: State, path: File)
    ensures LoadScript(s, path).requested == s.requested + {path}
  {
  }

  lemma ThreeBehind(s: State, a: File, b: File)
    ensures Behind(s, LoadScript(LoadScript(LoadScript(s, a), b), 2), Missing(s.requested, a, b))
  {
    hide LoadScript, Behind;
    var first := LoadScript(s, a);
    var second := LoadScript(first, b);
    LoadRequests(s, a);
    LoadRequests(first, b);
    var one := [] + if a in s.requested then [] else [a];
    var two := one + if b in first.requested then [] else [b];
    NothingBehind(s);
    LoadBehind(s, s, [], a);
    LoadBehind(s, first, one, b);
    LoadBehind(s, second, two, 2);
    assert Missing(s.requested, a, b) == two + if 2 in second.requested then [] else [2];
  }

  /** A round makes its elements in the order they must run in. */
  lemma FilesInOrder(s: State)
    ensures var b := if s.bootstrap.Some? then s.bootstrap.value else Body(true, None, None);
      Behind(s, StartFiles(s), Missing(s.requested, NamedOr(b.registry, 0), NamedOr(b.presentation, 1)))
  {
    var b := if s.bootstrap.Some? then s.bootstrap.value else Body(true, None, None);
    var registry, presentation := NamedOr(b.registry, 0), NamedOr(b.presentation, 1);
    assert ScriptPaths(s.bootstrap) == [registry, presentation, 2];
    hide LoadScripts, LoadScript, Behind, Missing;
    LoadThree(s, registry, presentation, 2);
    ThreeBehind(s, registry, presentation);
  }

  /** When the last script of a round settles and a hashed one failed, the fixed names are asked for, all of them and
      in order. */
  lemma FallbackInOrder(s: State)
    requires s.pending == 1 && s.failed && !s.stale && s.page.inFlight == []
    ensures var b := if s.bootstrap.Some? then s.bootstrap.value else Body(true, None, None);
      var r := Settle(s);
      r.stale && Behind(s, r, Missing({}, NamedOr(b.registry, 0), NamedOr(b.presentation, 1)))
  {
    hide LoadScripts, Missing, NamedOr;
    var s' := s.(pending := 0, stale := true, failed := false, requested := {},
                 done := s.done.(fallbacks := s.done.fallbacks + 1));
    FilesInOrder(s');
    assert Settle(s) == StartFiles(s');
    LoadAdds(s', ScriptPaths(s'.bootstrap));
  }
}
