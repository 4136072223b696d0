/** The call widget's loader as a state machine over the page's events
    (public/call-widget/l.js). */
module CallLoader {
  import opened Options

  /** A file name under /call-widget/; only whether two names are the same matters here. */
  type File = int

  const REGISTRY: File := 0
  const PRESENTATION: File := 1
  const RUNTIME: File := 2

  /** This build's content-hashed names, or the raw source without any. */
  datatype Build = NoBuild | Build(files: map<File, File>)

  datatype Script = Script(path: File, hashed: bool)

  /** The bootstrap's body, accepted when its status is "ok"; a path that is not a /call-widget/ file is None. */
  datatype Body = Body(accepted: bool, registry: Option<File>, presentation: Option<File>)

  /** An answer to the bootstrap request; `status` 0 is no answer at all, `body` None is not JSON. */
  datatype Response = Response(ok: bool, status: nat, body: Option<Body>)

  function PathOr(value: Option<File>, fallback: File): File {
    if value.Some? then value.value else fallback
  }

  /** The three page-load files, as the bootstrap names them. */
  function ScriptPaths(bootstrap: Option<Body>): (r: seq<File>)
    ensures |r| == 3 && r[2] == RUNTIME
  {
    [PathOr(if bootstrap.Some? then bootstrap.value.registry else None, REGISTRY),
     PathOr(if bootstrap.Some? then bootstrap.value.presentation else None, PRESENTATION),
     RUNTIME]
  }

  predicate Transient(r: Response) {
    r.status == 0 || r.status == 429 || r.status >= 500
  }

  predicate Ready(r: Response) {
    r.ok && r.body.Some? && r.body.value.accepted
  }

  /** The browser's side: script elements neither loaded nor failed yet, whether window.CallCenterWidget can
      mount, bootstrap requests without an answer, retries waiting for their delay. */
  datatype Page = Page(inFlight: seq<Script>, runtime: bool, answersDue: nat, timers: nat)

  /** What the run has done so far: script elements made, bootstrap requests made, times the fixed names were
      turned to, hashed scripts that failed, calls of the runtime's mount. */
  datatype Done = Done(created: nat, requests: nat, fallbacks: nat, hashedFailures: nat, mounts: nat)

  datatype State = State(
    build: Build,
    requested: set<File>,        // paths whose script is in the page
    pending: int,                // scripts requested and not yet executed
    failed: bool,                // a hashed script did not load
    stale: bool,                 // hashed names are no longer used
    bootstrap: Option<Body>,
    mounted: bool,
    bootstrapRetried: bool,
    pageLoaded: bool,
    off: bool,                   // this browser last heard "disabled"
    page: Page,
    done: Done)

  predicate Hashed(s: State, path: File) {
    s.build.Build? && !s.stale && path in s.build.files
  }

  function LoadScript(s: State, path: File): State {
    if path in s.requested then s
    else s.(requested := s.requested + {path}, pending := s.pending + 1,
            page := s.page.(inFlight := s.page.inFlight + [Script(path, Hashed(s, path))]),
            done := s.done.(created := s.done.created + 1))
  }

  function LoadScripts(s: State, paths: seq<File>): State
    decreases paths
  {
    if paths == [] then s else LoadScripts(LoadScript(s, paths[0]), paths[1..])
  }

  function TryMount(s: State): State {
    if s.mounted || s.bootstrap.None? || s.pending > 0 || !s.page.runtime then s
    else s.(mounted := true, done := s.done.(mounts := s.done.mounts + 1))
  }

  function Settle(s: State): State {
    var s' := s.(pending := s.pending - 1);
    if s'.pending == 0 && s'.failed && !s'.stale then
      LoadScripts(s'.(stale := true, failed := false, requested := {},
                      done := s.done.(fallbacks := s.done.fallbacks + 1)),
                  ScriptPaths(s'.bootstrap))
    else TryMount(s')
  }

  function StartFiles(s: State): State {
    LoadScripts(s, ScriptPaths(s.bootstrap))
  }

  /** The script leaves the page's queue; its onload or onerror handler runs next. */
  function Remove(s: State, i: nat): State
    requires i < |s.page.inFlight|
  {
    s.(page := s.page.(inFlight := s.page.inFlight[..i] + s.page.inFlight[i + 1..]))
  }

  function HashedFailed(s: State): State {
    s.(failed := true, done := s.done.(hashedFailures := s.done.hashedFailures + 1))
  }

  function OnLoad(s: State, i: nat): State
    requires i < |s.page.inFlight|
  {
    Settle(Remove(s, i))
  }

  function OnError(s: State, i: nat): State
    requires i < |s.page.inFlight|
  {
    if s.page.inFlight[i].hashed then
      Settle(HashedFailed(Remove(s, i)))
    else Settle(Remove(s, i))
  }

  function OnPageLoad(s: State): State {
    var s' := s.(pageLoaded := true);
    if s.build.Build? && !s.off then StartFiles(s') else s'
  }

  function RetryLater(s: State): State {
    s.(bootstrapRetried := true, page := s.page.(timers := s.page.timers + 1))
  }

  function OnAnswer(s: State, r: Response): State
    requires s.page.answersDue > 0
  {
    var s' := s.(page := s.page.(answersDue := s.page.answersDue - 1));
    if Ready(r) then TryMount(StartFiles(s'.(bootstrap := r.body, off := false)))
    else if Transient(r) && !s.bootstrapRetried then RetryLater(s')
    else if r.body.Some? && !Transient(r) then s'.(off := true)
    else s'
  }

  function RequestBootstrap(s: State): State {
    s.(page := s.page.(answersDue := s.page.answersDue + 1), done := s.done.(requests := s.done.requests + 1))
  }

  function OnTimer(s: State): State
    requires s.page.timers > 0
  {
    RequestBootstrap(s.(page := s.page.(timers := s.page.timers - 1)))
  }

  /** The page's state when the loader starts: nothing asked for, whatever the browser remembers. */
  function Blank(build: Build, pageLoaded: bool, off: bool): State {
    State(build, {}, 0, false, false, None, false, false, pageLoaded, off, Page([], false, 0, 0), Done(0, 0, 0, 0, 0))
  }

  function Start(build: Build, pageLoaded: bool, off: bool): State {
    var s := Blank(build, pageLoaded, off);
    RequestBootstrap(if build.Build? && !off && pageLoaded then StartFiles(s) else s)
  }

  /** What may happen next. `Executes` is a runtime script running, before its load event. */
  datatype Event = PageLoads | Executes(i: nat) | Loads(i: nat) | Fails(i: nat) | Answers(r: Response) | TimerFires

  predicate Enabled(s: State, e: Event) {
    match e
    case PageLoads => !s.pageLoaded
    case Executes(i) => i < |s.page.inFlight| && s.page.inFlight[i].path == RUNTIME && !s.page.runtime
    case Loads(i) => i < |s.page.inFlight|
    case Fails(i) => i < |s.page.inFlight|
    case Answers(r) => s.page.answersDue > 0
    case TimerFires => s.page.timers > 0
  }

  function Apply(s: State, e: Event): State {
    if !Enabled(s, e) then s
    else
      match e
      case PageLoads => OnPageLoad(s)
      case Executes(i) => s.(page := s.page.(runtime := true))
      case Loads(i) => OnLoad(s, i)
      case Fails(i) => OnError(s, i)
      case Answers(r) => OnAnswer(s, r)
      case TimerFires => OnTimer(s)
  }

  function Run(s: State, events: seq<Event>): State {
    if events == [] then s else Apply(Run(s, events[..|events| - 1]), events[|events| - 1])
  }

  // ----- the loader itself

  /** The closure's variables, the page's queue beside them; one method per handler. */
  class Loader {
    const build: Build
    var requested: set<File>
    var pending: int
    var failed: bool
    var stale: bool
    var bootstrap: Option<Body>
    var mounted: bool
    var bootstrapRetried: bool
    var pageLoaded: bool
    var off: bool
    var page: Page
    ghost var done: Done

    ghost function Now(): State
      reads this
    {
      State(build, requested, pending, failed, stale, bootstrap, mounted, bootstrapRetried, pageLoaded, off,
            page, done)
    }

    constructor (build: Build, pageLoaded: bool, off: bool)
      ensures Now() == Start(build, pageLoaded, off)
    {
      this.build := build;
      this.pageLoaded, this.off := pageLoaded, off;
      requested, pending, failed, stale := {}, 0, false, false;
      bootstrap, mounted, bootstrapRetried := None, false, false;
      page, done := Page([], false, 0, 0), Done(0, 0, 0, 0, 0);
      new;
      if build.Build? && !off && pageLoaded {
        StartTheFiles();
      }
      RequestTheBootstrap();
    }

    method LoadTheScripts(paths: seq<File>)
      modifies this
      ensures Now() == LoadScripts(old(Now()), paths)
    {
      var i := 0;
      assert paths[0..] == paths;
      while i < |paths|
        invariant 0 <= i <= |paths|
        invariant LoadScripts(Now(), paths[i..]) == LoadScripts(old(Now()), paths)
      {
        assert paths[i..][1..] == paths[i + 1..];
        var path := paths[i];
        i := i + 1;
        if path in requested {
          continue;
        }
        requested := requested + {path};
        pending := pending + 1;
        var hashed := build.Build? && !stale && path in build.files;
        page := page.(inFlight := page.inFlight + [Script(path, hashed)]);
        done := done.(created := done.created + 1);
      }
    }

    method TryToMount()
      modifies this
      ensures Now() == TryMount(old(Now()))
    {
      if mounted || bootstrap.None? || pending > 0 {
        return;
      }
      if !page.runtime {
        return;
      }
      mounted := true;
      done := done.(mounts := done.mounts + 1);
    }

    method SettleOne()
      modifies this
      ensures Now() == Settle(old(Now()))
    {
      hide LoadScripts;
      pending := pending - 1;
      if pending == 0 && failed && !stale {
        stale := true;
        failed := false;
        requested := {};
        done := done.(fallbacks := done.fallbacks + 1);
        LoadTheScripts(ScriptPaths(bootstrap));
        return;
      }
      TryToMount();
    }

    method StartTheFiles()
      modifies this
      ensures Now() == StartFiles(old(Now()))
    {
      LoadTheScripts(ScriptPaths(bootstrap));
    }

    method RequestTheBootstrap()
      modifies this
      ensures Now() == RequestBootstrap(old(Now()))
    {
      page := page.(answersDue := page.answersDue + 1);
      done := done.(requests := done.requests + 1);
    }

    method ScriptLoaded(i: nat)
      requires i < |page.inFlight|
      modifies this
      ensures Now() == OnLoad(old(Now()), i)
    {
      page := page.(inFlight := page.inFlight[..i] + page.inFlight[i + 1..]);
      SettleOne();
    }

    method ScriptFailed(i: nat)
      requires i < |page.inFlight|
      modifies this
      ensures Now() == OnError(old(Now()), i)
    {
      var hashed := page.inFlight[i].hashed;
      page := page.(inFlight := page.inFlight[..i] + page.inFlight[i + 1..]);
      if hashed {
        failed := true;
        done := done.(hashedFailures := done.hashedFailures + 1);
      }
      SettleOne();
    }

    method PageLoaded()
      requires !pageLoaded
      modifies this
      ensures Now() == OnPageLoad(old(Now()))
    {
      pageLoaded := true;
      if build.Build? && !off {
        StartTheFiles();
      }
    }

    /** Asks once more, after the delay; false when that was already done. */
    method RetryBootstrap() returns (retrying: bool)
      modifies this
      ensures retrying == !old(bootstrapRetried)
      ensures Now() == if retrying then RetryLater(old(Now())) else old(Now())
    {
      if bootstrapRetried {
        return false;
      }
      bootstrapRetried := true;
      page := page.(timers := page.timers + 1);
      retrying := true;
    }

    method BootstrapAnswered(r: Response)
      requires page.answersDue > 0
      modifies this
      ensures Now() == OnAnswer(old(Now()), r)
    {
      hide LoadScripts;
      page := page.(answersDue := page.answersDue - 1);
      if !r.ok || r.body.None? || !r.body.value.accepted {
        if r.status == 0 || r.status == 429 || r.status >= 500 {
          var retrying := RetryBootstrap();
          if retrying {
            return;
          }
        }
        if r.body.Some? && r.status > 0 && r.status < 500 && r.status != 429 {
          off := true;
        }
        return;
      }
      bootstrap := r.body;
      off := false;
      StartTheFiles();
      TryToMount();
    }

    method RetryDelayOver()
      requires page.timers > 0
      modifies this
      ensures Now() == OnTimer(old(Now()))
    {
      page := page.(timers := page.timers - 1);
      RequestTheBootstrap();
    }
  }
}
