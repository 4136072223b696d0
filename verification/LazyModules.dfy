/** The two modules the call widget loads on demand, the media SDK and the panel
    (public/call-widget/l.js, ensureLiveKitSdk and ensurePanel): one shared load
    for everyone waiting, with callbacks that may ask again, take the module away
    or throw while being called. */
module LazyModules {
  import opened Options

  /** A script element on its way; with a fallback it is the hashed copy. */
  datatype Element = Element(fallback: bool)

  /** One run of `done`: whom it calls, whether the module was there when the load ended, and which of its
      callbacks threw, if one did. */
  datatype Batch = Batch(ids: seq<nat>, presence: bool, thrower: Option<nat>)

  /** A callback called: by the loop of a batch, or at once (`batch` is None). `presence` is whether the module was
      there at that moment; `ready` is what the callback was told. */
  datatype Call = Call(id: nat, ready: bool, presence: bool, batch: Option<nat>)

  /** Callbacks are numbered as they are registered. `draining` are those the running `done` has still to call and
      `running` says that one it called has not returned; `answer` is what it read before its loop. `sticky`: the
      SDK's loop passes that answer on, while the panel's looks again before each call. */
  datatype State = State(
    sticky: bool,
    present: bool,               // the module's global is defined
    waiters: Option<seq<nat>>,
    page: seq<Element>,
    draining: seq<nat>,
    running: bool,
    answer: bool,
    registered: nat,
    made: nat,                   // elements made since the waiters were last empty
    batches: seq<Batch>,
    calls: seq<Call>)

  function Fresh(sticky: bool): State {
    State(sticky, false, None, [], [], false, false, 0, 0, [], [])
  }

  function Load(s: State, fallback: bool): State {
    s.(page := s.page + [Element(fallback)], made := s.made + 1)
  }

  /** `hashed`: the build names a hashed copy and the names are not stale. */
  function Ensure(s: State, hashed: bool): State {
    var id := s.registered;
    var s' := s.(registered := id + 1);
    if s.present then s'.(calls := s.calls + [Call(id, true, s.present, None)])
    else if s.waiters.Some? then s'.(waiters := Some(s.waiters.value + [id]))
    else Load(s'.(waiters := Some([id]), made := 0), hashed)
  }

  function Waiting(s: State): seq<nat> {
    if s.waiters.Some? then s.waiters.value else []
  }

  function Done(s: State): State {
    s.(waiters := None, draining := Waiting(s), answer := s.present,
       batches := s.batches + [Batch(Waiting(s), s.present, None)])
  }

  function Removed(s: State, i: nat): State
    requires i < |s.page|
  {
    s.(page := s.page[..i] + s.page[i + 1..])
  }

  function OnLoad(s: State, i: nat): State
    requires i < |s.page|
  {
    Done(Removed(s, i))
  }

  function OnError(s: State, i: nat): State
    requires i < |s.page|
  {
    if s.page[i].fallback then Load(Removed(s, i), false) else Done(Removed(s, i))
  }

  /** One turn of done's loop. */
  function CallNext(s: State): State
    requires s.draining != [] && s.batches != []
  {
    var call := Call(s.draining[0], if s.sticky then s.answer else s.present, s.present, Some(|s.batches| - 1));
    s.(draining := s.draining[1..], running := true, calls := s.calls + [call])
  }

  /** The callback just called throws: nothing catches it, so the loop ends there. */
  function Abandon(s: State): State
    requires s.batches != []
  {
    var last := s.batches[|s.batches| - 1];
    var position := |last.ids| - |s.draining| - 1;
    var thrown := last.(thrower := if position >= 0 then Some(position) else None);
    s.(draining := [], running := false, batches := s.batches[..|s.batches| - 1] + [thrown])
  }

  /** `Asks`, `Defines` and `Vanishes` may come from anywhere, also from inside a callback; elements report only
      between handlers. */
  datatype Event =
    | Asks(hashed: bool) | Defines | Vanishes | Loads(i: nat) | Fails(i: nat) | Calls | Returns | Throws

  /** No `done` is running. */
  predicate Idle(s: State) {
    s.draining == [] && !s.running
  }

  predicate Enabled(s: State, e: Event) {
    match e
    case Asks(hashed) => true
    case Defines => true
    case Vanishes => true
    case Loads(i) => Idle(s) && i < |s.page|
    case Fails(i) => Idle(s) && i < |s.page|
    case Calls => s.draining != [] && s.batches != []
    case Returns => s.running && s.draining == []
    case Throws => s.running && s.batches != []
  }

  function Apply(s: State, e: Event): State {
    if !Enabled(s, e) then s
    else
      match e
      case Asks(hashed) => Ensure(s, hashed)
      case Defines => s.(present := true)
      case Vanishes => s.(present := false)
      case Loads(i) => OnLoad(s, i)
      case Fails(i) => OnError(s, i)
      case Calls => CallNext(s)
      case Returns => s.(running := false)
      case Throws => Abandon(s)
  }

  function Run(s: State, events: seq<Event>): State {
    if events == [] then s else Apply(Run(s, events[..|events| - 1]), events[|events| - 1])
  }

  // ----- the closures themselves

  /** The loop of `done` is its turns: `draining` and `running` are the frame it keeps between them. */
  class LazyModule {
    const sticky: bool
    var present: bool
    var waiters: Option<seq<nat>>
    var page: seq<Element>
    var draining: seq<nat>
    var running: bool
    var answer: bool
    var registered: nat
    ghost var made: nat
    ghost var batches: seq<Batch>
    ghost var calls: seq<Call>

    ghost function Now(): State
      reads this
    {
      State(sticky, present, waiters, page, draining, running, answer, registered, made, batches, calls)
    }

    constructor (sticky: bool)
      ensures Now() == Fresh(sticky)
    {
      this.sticky := sticky;
      present, waiters, page, draining, running, answer, registered := false, None, [], [], false, false, 0;
      made, batches, calls := 0, [], [];
    }

    method LoadSource(fallback: bool)
      modifies this
      ensures Now() == Load(old(Now()), fallback)
    {
      page := page + [Element(fallback)];
      made := made + 1;
    }

    method Ask(hashed: bool)
      modifies this
      ensures Now() == Ensure(old(Now()), hashed)
    {
      var id := registered;
      registered := registered + 1;
      if present {
        calls := calls + [Call(id, true, present, None)];
        return;
      }
      if waiters.Some? {
        waiters := Some(waiters.value + [id]);
        return;
      }
      waiters := Some([id]);
      made := 0;
      LoadSource(hashed);
    }

    method Finish()
      modifies this
      ensures Now() == Done(old(Now()))
    {
      answer := present;
      draining := if waiters.Some? then waiters.value else [];
      waiters := None;
      batches := batches + [Batch(draining, present, None)];
    }

    method ElementLoaded(i: nat)
      requires Idle(Now()) && i < |page|
      modifies this
      ensures Now() == OnLoad(old(Now()), i)
    {
      page := page[..i] + page[i + 1..];
      Finish();
    }

    method ElementFailed(i: nat)
      requires Idle(Now()) && i < |page|
      modifies this
      ensures Now() == OnError(old(Now()), i)
    {
      var fallback := page[i].fallback;
      page := page[..i] + page[i + 1..];
      if fallback {
        LoadSource(false);
      } else {
        Finish();
      }
    }

    method CallWaiter() returns (id: nat, ready: bool)
      requires draining != [] && batches != []
      modifies this
      ensures Now() == CallNext(old(Now()))
      ensures id == old(draining)[0] && ready == if sticky then old(answer) else old(present)
    {
      id := draining[0];
      ready := if sticky then answer else present;
      calls := calls + [Call(id, ready, present, Some(|batches| - 1))];
      draining := draining[1..];
      running := true;
    }

    method WaiterThrew()
      requires running && batches != []
      modifies this
      ensures Now() == Abandon(old(Now()))
    {
      ghost var last := batches[|batches| - 1];
      ghost var position := |last.ids| - |draining| - 1;
      batches := batches[..|batches| - 1] + [last.(thrower := if position >= 0 then Some(position) else None)];
      draining := [];
      running := false;
    }
  }

  // ----- what every run keeps

  function Count(ids: seq<nat>, id: nat): nat {
    if ids == [] then 0
    else Count(ids[..|ids| - 1], id) + if ids[|ids| - 1] == id then 1 else 0
  }

  function CallsOf(calls: seq<Call>, id: nat): nat {
    if calls == [] then 0
    else CallsOf(calls[..|calls| - 1], id) + if calls[|calls| - 1].id == id then 1 else 0
  }

  /** The callbacks of a batch behind the one that threw. */
  function Lost(b: Batch): seq<nat> {
    if b.thrower.Some? && b.thrower.value < |b.ids| then b.ids[b.thrower.value + 1..] else []
  }

  function LostCount(batches: seq<Batch>, id: nat): nat {
    if batches == [] then 0
    else LostCount(batches[..|batches| - 1], id) + Count(Lost(batches[|batches| - 1]), id)
  }

  /** An earlier callback of `id`'s batch threw. */
  ghost predicate BehindThrower(batches: seq<Batch>, id: nat) {
    exists k, j :: 0 <= k < |batches| && IsBehind(batches[k], j) && batches[k].ids[j] == id
  }

  predicate IsBehind(b: Batch, j: int) {
    b.thrower.Some? && b.thrower.value < j < |b.ids|
  }

  /** A registered callback is waiting, about to be called, called or lost, and that once; no other is. */
  ghost predicate Once(s: State, id: nat) {
    Count(Waiting(s), id) + Count(s.draining, id) + CallsOf(s.calls, id) + LostCount(s.batches, id)
    == if id < s.registered then 1 else 0
  }

  ghost predicate OneLoad(s: State) {
    && (s.waiters.Some? <==> s.page != [])
    && |s.page| <= 1
    && (s.page != [] ==> s.made == 1 || (s.made == 2 && !s.page[0].fallback))
    && s.made <= 2
  }

  /** The loop that runs is the last batch's, and stands behind the callbacks it called. */
  ghost predicate Loop(s: State) {
    !Idle(s) ==>
      && s.batches != []
      && var last := s.batches[|s.batches| - 1];
         && last.thrower.None? && s.answer == last.presence
         && |s.draining| <= |last.ids| && s.draining == last.ids[|last.ids| - |s.draining|..]
         && (s.running ==> |s.draining| < |last.ids|)
  }

  /** What a callback was told: the SDK's waiters, whether it was there when their load ended; the panel's, whether
      it is there now; and who is called at once, that it is. */
  ghost predicate Told(s: State, c: Call) {
    match c.batch
    case None => c.ready && c.presence
    case Some(k) => k < |s.batches| && c.ready == if s.sticky then s.batches[k].presence else c.presence
  }

  ghost predicate AllTold(s: State) {
    forall c :: c in s.calls ==> Told(s, c)
  }

  ghost predicate Inv(s: State, id: nat) {
    Once(s, id) && OneLoad(s) && Loop(s) && AllTold(s)
  }

  lemma CountAppend(ids: seq<nat>, x: nat, id: nat)
    ensures Count(ids + [x], id) == Count(ids, id) + if x == id then 1 else 0
  {
    assert (ids + [x])[..|ids|] == ids;
  }

  lemma CallsAppend(calls: seq<Call>, c: Call, id: nat)
    ensures CallsOf(calls + [c], id) == CallsOf(calls, id) + if c.id == id then 1 else 0
  {
    assert (calls + [c])[..|calls|] == calls;
  }

  lemma LostAppend(batches: seq<Batch>, b: Batch, id: nat)
    ensures LostCount(batches + [b], id) == LostCount(batches, id) + Count(Lost(b), id)
  {
    assert (batches + [b])[..|batches|] == batches;
  }

  lemma {:induction false} CountHead(ids: seq<nat>, id: nat)
    requires ids != []
    ensures Count(ids, id) == (if ids[0] == id then 1 else 0) + Count(ids[1..], id)
  {
    if |ids| > 1 {
      CountHead(ids[..|ids| - 1], id);
      assert ids[..|ids| - 1][1..] == ids[1..][..|ids| - 2];
    } else {
      assert ids[..0] == [] && ids[1..] == [];
      assert Count(ids[..0], id) == 0;
    }
  }

  lemma {:induction false} CountMember(ids: seq<nat>, id: nat)
    ensures Count(ids, id) > 0 <==> exists j :: 0 <= j < |ids| && ids[j] == id
  {
    if ids != [] {
      var front := ids[..|ids| - 1];
      CountMember(front, id);
      if j :| 0 <= j < |ids| && ids[j] == id {
        assert j < |front| ==> front[j] == id;
      }
      if Count(front, id) > 0 {
        var j :| 0 <= j < |front| && front[j] == id;
        assert ids[j] == id;
      }
    }
  }

  lemma LostMember(b: Batch, id: nat)
    ensures Count(Lost(b), id) > 0 <==> exists j :: IsBehind(b, j) && b.ids[j] == id
  {
    CountMember(Lost(b), id);
    if Count(Lost(b), id) > 0 {
      var j :| 0 <= j < |Lost(b)| && Lost(b)[j] == id;
      assert IsBehind(b, b.thrower.value + 1 + j);
    }
    if j :| IsBehind(b, j) && b.ids[j] == id {
      assert Lost(b)[j - b.thrower.value - 1] == id;
    }
  }

  lemma {:induction false} LostBehind(batches: seq<Batch>, id: nat)
    ensures LostCount(batches, id) > 0 <==> BehindThrower(batches, id)
  {
    hide Lost;
    if batches != [] {
      var front, last := batches[..|batches| - 1], batches[|batches| - 1];
      LostBehind(front, id);
      LostMember(last, id);
      if BehindThrower(front, id) {
        var k, j :| 0 <= k < |front| && IsBehind(front[k], j) && front[k].ids[j] == id;
        assert batches[k] == front[k];
      }
    }
  }

  lemma EnsureOnce(s: State, hashed: bool, id: nat)
    requires Once(s, id)
    ensures Once(Ensure(s, hashed), id)
  {
    hide LostCount;
    CallsAppend(s.calls, Call(s.registered, true, s.present, None), id);
    CountAppend(Waiting(s), s.registered, id);
    assert [] + [s.registered] == [s.registered];
  }

  /** What was told before stays true as long as the batches' presences stay. */
  lemma ToldKeeps(s: State, s': State)
    requires AllTold(s) && s'.sticky == s.sticky && |s.batches| <= |s'.batches|
    requires forall k :: 0 <= k < |s.batches| ==> s'.batches[k].presence == s.batches[k].presence
    ensures forall c :: c in s.calls ==> Told(s', c)
  {
    forall c | c in s.calls
      ensures Told(s', c)
    {
      assert Told(s, c);
    }
  }

  lemma EnsureKeeps(s: State, hashed: bool, id: nat)
    requires Inv(s, id)
    ensures Inv(Ensure(s, hashed), id)
  {
    hide Once;
    EnsureOnce(s, hashed, id);
    var s' := Ensure(s, hashed);
    ToldKeeps(s, s');
    assert AllTold(s') by {
      hide Told;
      assert Told(s', Call(s.registered, true, true, None)) by { ToldAtOnce(s', s.registered); }
    }
  }

  lemma ToldAtOnce(s: State, id: nat)
    ensures Told(s, Call(id, true, true, None))
  {
  }

  lemma DoneKeeps(s: State, i: nat, id: nat)
    requires Inv(s, id) && Idle(s) && i < |s.page|
    ensures Inv(Done(Removed(s, i)), id)
  {
    hide Told, LostCount;
    LostAppend(s.batches, Batch(Waiting(s), s.present, None), id);
    assert Removed(s, i).page == [];
    ToldKeeps(s, Done(Removed(s, i)));
  }

  lemma CallOnce(s: State, id: nat)
    requires Once(s, id) && s.draining != [] && s.batches != []
    ensures Once(CallNext(s), id)
  {
    hide LostCount;
    CountHead(s.draining, id);
    CallsAppend(s.calls, CallNext(s).calls[|s.calls|], id);
  }

  lemma CallKeeps(s: State, id: nat)
    requires Inv(s, id) && s.draining != []
    ensures s.batches != [] && Inv(CallNext(s), id)
  {
    hide Once;
    CallOnce(s, id);
    var s' := CallNext(s);
    ToldKeeps(s, s');
    assert s'.calls == s.calls + [s'.calls[|s.calls|]];
    assert Told(s', s'.calls[|s.calls|]);
  }

  lemma FallbackKeeps(s: State, i: nat, id: nat)
    requires Inv(s, id) && Idle(s) && i < |s.page| && s.page[i].fallback
    ensures Inv(Load(Removed(s, i), false), id)
  {
    hide Told;
    assert Removed(s, i).page == [];
    ToldKeeps(s, Load(Removed(s, i), false));
  }

  /** Those still to be called are what the throw loses. */
  lemma AbandonLoses(s: State)
    requires Loop(s) && s.running
    ensures var n := |s.batches| - 1;
      && n >= 0 && |Abandon(s).batches| == n + 1 && Abandon(s).batches[..n] == s.batches[..n]
      && Lost(s.batches[n]) == [] && Lost(Abandon(s).batches[n]) == s.draining
  {
  }

  lemma ThrowOnce(s: State, id: nat)
    requires Once(s, id) && Loop(s) && s.running
    ensures Once(Abandon(s), id)
  {
    AbandonLoses(s);
    hide Lost, Loop, CallsOf;
    var n := |s.batches| - 1;
    assert s.batches == s.batches[..n] + [s.batches[n]];
    LostAppend(s.batches[..n], s.batches[n], id);
    LostAppend(s.batches[..n], Abandon(s).batches[n], id);
  }

  lemma ThrowKeeps(s: State, id: nat)
    requires Inv(s, id) && s.running
    ensures s.batches != [] && Inv(Abandon(s), id)
  {
    hide Once, Told;
    ThrowOnce(s, id);
    ToldKeeps(s, Abandon(s));
  }

  /** Presence alone changes nothing that is kept. */
  lemma PresenceKeeps(s: State, present: bool, running: bool, id: nat)
    requires Inv(s, id) && (running == s.running || (s.draining == [] && !running))
    ensures Inv(s.(present := present, running := running), id)
  {
    hide LostCount, Count, CallsOf, Told;
    ToldKeeps(s, s.(present := present, running := running));
  }

  lemma ApplyKeeps(s: State, e: Event, id: nat)
    requires Inv(s, id)
    ensures Inv(Apply(s, e), id)
  {
    hide Inv, Ensure, Done, Load, CallNext, Abandon;
    if Enabled(s, e) {
      match e
      case Asks(hashed) => EnsureKeeps(s, hashed, id);
      case Defines => PresenceKeeps(s, true, s.running, id);
      case Vanishes => PresenceKeeps(s, false, s.running, id);
      case Loads(i) => DoneKeeps(s, i, id);
      case Fails(i) =>
        if s.page[i].fallback {
          FallbackKeeps(s, i, id);
        } else {
          DoneKeeps(s, i, id);
        }
      case Calls => CallKeeps(s, id);
      case Returns => PresenceKeeps(s, s.present, false, id);
      case Throws => ThrowKeeps(s, id);
    }
  }

  lemma {:induction false} RunKeeps(sticky: bool, events: seq<Event>, id: nat)
    ensures Inv(Run(Fresh(sticky), events), id) && Run(Fresh(sticky), events).sticky == sticky
  {
    hide Inv;
    if events != [] {
      RunKeeps(sticky, events[..|events| - 1], id);
      ApplyKeeps(Run(Fresh(sticky), events[..|events| - 1]), events[|events| - 1], id);
    } else {
      FreshInv(sticky, id);
    }
  }

  lemma FreshInv(sticky: bool, id: nat)
    ensures Inv(Fresh(sticky), id)
  {
  }

  /** Over any run: at most one element is on its way and at most two are made per load; no callback is called twice;
      every callback is told what the module's presence was, at the moment of the call or for the SDK's waiters when
      their load ended; and at rest a registered callback was called exactly once, unless an earlier one of its batch
      threw, and then never. */
  lemma EveryRun(sticky: bool, events: seq<Event>, id: nat)
    ensures var s := Run(Fresh(sticky), events);
      && |s.page| <= 1 && s.made <= 2 && (s.page != [] <==> s.waiters.Some?)
      && CallsOf(s.calls, id) <= 1 && (id >= s.registered ==> CallsOf(s.calls, id) == 0)
      && (forall c :: c in s.calls ==> Told(s, c))
      && (s.page == [] && Idle(s) && id < s.registered ==>
            (CallsOf(s.calls, id) == 1 <==> !BehindThrower(s.batches, id)))
  {
    hide Told, BehindThrower, Loop;
    RunKeeps(sticky, events, id);
    LostBehind(Run(Fresh(sticky), events).batches, id);
  }

  // ----- first come, first told, and the fixed name tried

  ghost predicate Rising(ids: seq<nat>, n: nat) {
    (forall i, j :: 0 <= i < j < |ids| ==> ids[i] < ids[j]) && forall i :: 0 <= i < |ids| ==> ids[i] < n
  }

  ghost predicate InTurn(calls: seq<Call>) {
    forall i, j :: 0 <= i < j < |calls| && calls[i].batch.Some? && calls[i].batch == calls[j].batch ==>
      calls[i].id < calls[j].id
  }

  /** The calls of the last of `n` batches were of callbacks registered before those it has still to call. */
  ghost predicate Ahead(calls: seq<Call>, draining: seq<nat>, n: nat) {
    && (forall i :: 0 <= i < |calls| && calls[i].batch.Some? ==> calls[i].batch.value < n)
    && (forall i, j :: 0 <= i < |calls| && 0 <= j < |draining| && calls[i].batch == Some(n - 1) ==>
          calls[i].id < draining[j])
  }

  /** Those waiting and those about to be called stand as they registered, and behind those of their batch called. */
  ghost predicate Turns(s: State) {
    && Rising(Waiting(s), s.registered) && Rising(s.draining, s.registered)
    && InTurn(s.calls) && Ahead(s.calls, s.draining, |s.batches|)
  }

  lemma RisingMore(ids: seq<nat>, n: nat)
    requires Rising(ids, n)
    ensures Rising(ids, n + 1) && Rising(ids + [n], n + 1)
  {
  }

  lemma InTurnMore(calls: seq<Call>, c: Call)
    requires InTurn(calls) && c.batch.None?
    ensures InTurn(calls + [c])
    ensures forall draining, n :: Ahead(calls, draining, n) ==> Ahead(calls + [c], draining, n)
  {
  }

  lemma AtOnceTurns(s: State, hashed: bool)
    requires Turns(s) && s.present
    ensures Turns(Ensure(s, hashed))
  {
    hide Rising, InTurn, Ahead;
    RisingMore(Waiting(s), s.registered);
    RisingMore(s.draining, s.registered);
    InTurnMore(s.calls, Call(s.registered, true, s.present, None));
  }

  lemma WaitTurns(s: State, hashed: bool)
    requires Turns(s) && !s.present
    ensures Turns(Ensure(s, hashed))
  {
    hide Rising, InTurn, Ahead;
    RisingMore(Waiting(s), s.registered);
    RisingMore(s.draining, s.registered);
    assert [] + [s.registered] == [s.registered];
  }

  lemma EnsureTurns(s: State, hashed: bool)
    requires Turns(s)
    ensures Turns(Ensure(s, hashed))
  {
    hide Turns, Ensure;
    if s.present {
      AtOnceTurns(s, hashed);
    } else {
      WaitTurns(s, hashed);
    }
  }

  lemma CallTurns(s: State)
    requires Turns(s) && s.draining != [] && s.batches != []
    ensures Turns(CallNext(s))
  {
    var s' := CallNext(s);
    assert forall j :: 0 <= j < |s'.draining| ==> s'.draining[j] == s.draining[j + 1];
  }

  lemma DoneTurns(s: State, i: nat)
    requires Turns(s) && Idle(s) && i < |s.page|
    ensures Turns(Done(Removed(s, i)))
  {
  }

  lemma ApplyTurns(s: State, e: Event)
    requires Turns(s)
    ensures Turns(Apply(s, e))
  {
    hide Ensure, Done, CallNext, InTurn, Rising, Ahead;
    if Enabled(s, e) {
      match e
      case Asks(hashed) => EnsureTurns(s, hashed);
      case Defines =>
      case Vanishes =>
      case Loads(i) => DoneTurns(s, i);
      case Fails(i) =>
        if !s.page[i].fallback {
          DoneTurns(s, i);
        }
      case Calls => CallTurns(s);
      case Returns =>
      case Throws => AbandonTurns(s);
    }
  }

  lemma AbandonTurns(s: State)
    requires Turns(s) && s.batches != []
    ensures Turns(Abandon(s))
  {
  }

  /** Over any run, those who wait for one load are called in the order they asked. */
  lemma {:induction false} CalledInTurn(sticky: bool, events: seq<Event>)
    ensures Turns(Run(Fresh(sticky), events)) && InTurn(Run(Fresh(sticky), events).calls)
  {
    hide Turns, Apply;
    if events == [] {
      FreshTurns(sticky);
    } else {
      CalledInTurn(sticky, events[..|events| - 1]);
      ApplyTurns(Run(Fresh(sticky), events[..|events| - 1]), events[|events| - 1]);
    }
    TurnsCalls(Run(Fresh(sticky), events));
  }

  lemma FreshTurns(sticky: bool)
    ensures Turns(Fresh(sticky))
  {
  }

  lemma TurnsCalls(s: State)
    requires Turns(s)
    ensures InTurn(s.calls)
  {
  }

  /** After any run, who asks is called at once when the module is there; when it is not, the first waits for one
      element, the hashed copy if there is one, and the others wait with them, last. */
  lemma AskedOnce(sticky: bool, events: seq<Event>, hashed: bool)
    ensures var s := Run(Fresh(sticky), events);
      var asked := Apply(s, Asks(hashed));
      && (s.present ==>
            asked.calls == s.calls + [Call(s.registered, true, true, None)]
            && asked.page == s.page && asked.waiters == s.waiters)
      && (!s.present ==> asked.calls == s.calls && asked.waiters == Some(Waiting(s) + [s.registered]))
      && (!s.present ==> asked.page == if s.waiters.Some? then s.page else [Element(hashed)])
  {
    hide Run, Once, Told, Loop;
    RunKeeps(sticky, events, 0);
    assert [] + [Run(Fresh(sticky), events).registered] == [Run(Fresh(sticky), events).registered];
  }

  /** After any run: a hashed copy that fails is replaced by the fixed name and nobody is told yet; when the fixed name
      fails, or any element loads, everyone who waits is called, and the next to ask starts afresh. */
  lemma ElementSettles(sticky: bool, events: seq<Event>, i: nat)
    requires var s := Run(Fresh(sticky), events); Idle(s) && i < |s.page|
    ensures var s := Run(Fresh(sticky), events);
      var failed, loaded := Apply(s, Fails(i)), Apply(s, Loads(i));
      && s.waiters.Some? && s.page == [s.page[0]]
      && (s.page[0].fallback ==>
            failed.page == [Element(false)] && failed.waiters == s.waiters && failed.batches == s.batches)
      && (!s.page[0].fallback ==> failed == loaded)
      && loaded.page == [] && loaded.waiters == None && loaded.draining == s.waiters.value
      && loaded.batches == s.batches + [Batch(s.waiters.value, s.present, None)]
  {
    hide Run, Once, Told, Loop;
    RunKeeps(sticky, events, 0);
  }

  /** The rest of a loop whose callbacks all return. */
  function Finishing(n: nat): (r: seq<Event>)
    ensures |r| == n + 1
  {
    if n == 0 then [Returns] else [Calls] + Finishing(n - 1)
  }

  lemma {:induction false} RunFirst(s: State, e: Event, events: seq<Event>)
    ensures Run(s, [e] + events) == Run(Apply(s, e), events)
  {
    hide Apply;
    if events == [] {
      assert [e] + events == [e] && [e][..0] == [];
    } else {
      var front, n := events[..|events| - 1], |events|;
      RunFirst(s, e, front);
      assert ([e] + events)[..n] == [e] + front;
    }
  }

  /** A loop that nobody's exception ends calls everyone left, in order, and then ends. */
  lemma {:induction false} LoopEnds(s: State)
    requires !Idle(s) && s.batches != []
    ensures var t := Run(s, Finishing(|s.draining|));
      && Idle(t) && t.page == s.page && t.waiters == s.waiters
      && |t.calls| == |s.calls| + |s.draining| && s.calls <= t.calls
      && forall k :: 0 <= k < |s.draining| ==> t.calls[|s.calls| + k].id == s.draining[k]
    decreases |s.draining|
  {
    if s.draining == [] {
      assert Run(s, []) == s;
      assert [Returns][..0] == [];
    } else {
      var s' := CallNext(s);
      LoopEnds(s');
      RunFirst(s, Calls, Finishing(|s'.draining|));
      var t := Run(s', Finishing(|s'.draining|));
      assert t.calls[|s.calls|] == s'.calls[|s.calls|];
      forall k | 0 < k < |s.draining|
        ensures t.calls[|s.calls| + k].id == s.draining[k]
      {
        assert t.calls[|s'.calls| + (k - 1)].id == s'.draining[k - 1];
      }
    }
  }

  // ----- what the two modules' answers differ in

  function TwoWaiters(): seq<Event> {
    [Asks(false), Asks(false), Defines, Loads(0), Calls, Vanishes, Calls]
  }

  /** Two wait, the module comes, and the first one called takes it away: the SDK's second waiter is told it is there,
      the panel's that it is not. */
  lemma StaleAnswer(sticky: bool)
    ensures var s := Run(Fresh(sticky), TwoWaiters());
      |s.calls| == 2 && s.calls[1].id == 1 && !s.calls[1].presence && s.calls[1].ready == sticky
  {
    hide Run;
    var e := TwoWaiters();
    TwoCalled(sticky);
    RunStep(sticky, e, 6);
    assert e[..7] == e;
  }

  lemma TwoJoined(sticky: bool)
    ensures Run(Fresh(sticky), TwoWaiters()[..2])
         == State(sticky, false, Some([0, 1]), [Element(false)], [], false, false, 2, 1, [], [])
  {
    hide Run;
    RunStep(sticky, TwoWaiters(), 0);
    RunStep(sticky, TwoWaiters(), 1);
    assert [] + [Element(false)] == [Element(false)] && [0] + [1] == [0, 1];
    assert Run(Fresh(sticky), TwoWaiters()[..1])
        == State(sticky, false, Some([0]), [Element(false)], [], false, false, 1, 1, [], []);
  }

  lemma TwoLoaded(sticky: bool)
    ensures Run(Fresh(sticky), TwoWaiters()[..4])
         == State(sticky, true, None, [], [0, 1], false, true, 2, 1, [Batch([0, 1], true, None)], [])
  {
    hide Run;
    TwoJoined(sticky);
    RunStep(sticky, TwoWaiters(), 2);
    RunStep(sticky, TwoWaiters(), 3);
  }

  lemma TwoCalled(sticky: bool)
    ensures Run(Fresh(sticky), TwoWaiters()[..6])
         == State(sticky, false, None, [], [1], true, true, 2, 1, [Batch([0, 1], true, None)],
                  [Call(0, true, true, Some(0))])
  {
    hide Run;
    TwoLoaded(sticky);
    RunStep(sticky, TwoWaiters(), 4);
    RunStep(sticky, TwoWaiters(), 5);
  }

  /** And if the first one called throws, the second is never called. */
  lemma ThrowLosesTheNext(sticky: bool)
    ensures var s := Run(Fresh(sticky), TwoWaiters()[..5] + [Throws]);
      Idle(s) && s.page == [] && s.registered == 2 && CallsOf(s.calls, 0) == 1 && CallsOf(s.calls, 1) == 0
  {
    hide Run;
    var e := TwoWaiters()[..5] + [Throws];
    TwoLoaded(sticky);
    RunStep(sticky, TwoWaiters(), 4);
    RunStep(sticky, e, 5);
    assert e[..5] == TwoWaiters()[..5] && e[..6] == e && [0, 1][1..] == [1];
    FirstThrew(sticky, [Batch([0, 1], true, None)], [Call(0, true, true, Some(0))]);
  }

  lemma FirstThrew(sticky: bool, batches: seq<Batch>, calls: seq<Call>)
    requires batches == [Batch([0, 1], true, None)] && calls == [Call(0, true, true, Some(0))]
    ensures var s := Apply(State(sticky, true, None, [], [1], true, true, 2, 1, batches, calls), Throws);
      Idle(s) && s.page == [] && s.registered == 2 && CallsOf(s.calls, 0) == 1 && CallsOf(s.calls, 1) == 0
  {
    assert calls == [] + calls;
    CallsAppend([], calls[0], 0);
    CallsAppend([], calls[0], 1);
  }

  lemma RunStep(sticky: bool, events: seq<Event>, n: nat)
    requires n < |events|
    ensures events[..0] == [] && Run(Fresh(sticky), events[..0]) == Fresh(sticky)
    ensures Run(Fresh(sticky), events[..n + 1]) == Apply(Run(Fresh(sticky), events[..n]), events[n])
  {
    hide Apply;
    assert events[..n + 1][..n] == events[..n];
  }
}
