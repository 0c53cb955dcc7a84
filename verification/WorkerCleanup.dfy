/** What a worker capture holds and who gives it back: the worker or the message channel, the
    listener on a service worker's state, and the service worker's registration, which its own
    continuation or cleanup unregisters. */
module WorkerCleanup {
  import opened Results

  type Scope = seq<char>

  datatype Kind = DedicatedWorker | SharedWorker | ServiceWorker

  /** What cleanup releases in an attempt of its own. */
  datatype Resource = StateListener | Dedicated | Shared | Port1 | Port2

  /** A promise of the capture: not made, waiting for the browser, waiting for unregister, or settled. */
  datatype Promise = Unmade | Waiting | Unregistering | Settled(ok: bool)

  datatype Main = Starting | AwaitingRegistration | AwaitingState | AwaitingReply | AwaitingCleanup | Returned

  /** owned is the scope this capture was given and faulty the resources whose release throws;
      registering is the registration together with its continuation, cleaning the memoised
      cleanup and failed whether one of its attempts threw. calls lists the scopes unregister was
      called on, removed is set once such a call answers true in time. held is all the capture
      has acquired, late what it acquired after cleanup was called, released what cleanup has
      attempted to release, in order. */
  datatype State = State(
    kind: Kind, owned: Scope, faulty: set<Resource>,
    registering: Promise, registration: Option<Scope>, cancelled: bool, cleaning: Promise, failed: bool, main: Main,
    calls: seq<Scope>, removed: bool, held: set<Resource>, late: set<Resource>, released: seq<Resource>)

  datatype Event =
    | Start(refusedAtOnce: bool)      // the worker is made or register() called; either may throw outright
    | Resolves(scope: Scope)          // the browser grants a registration
    | Rejects                         // the browser refuses it
    | HandlerAnswered(removed: bool)  // unregister, called by the continuation, answers
    | HandlerExpires                  // its two seconds pass
    | CleanupAnswered(removed: bool)  // unregister, called by cleanup, answers
    | CleanupExpires                  // its two seconds pass, or those of waiting for the registration
    | CleanupWakes                    // the registration cleanup waited for has settled
    | MainWakes(installed: bool)      // the registration the capture awaited has settled, with this script in it or not
    | Activated                       // the service worker is active
    | MainEnds                        // the capture succeeds or fails while it waits for the worker
    | Deadline                        // the capture's deadline passes
    | External                        // somebody else calls cleanup
    | MainReturns                     // the capture's own call of cleanup has settled

  function Initial(kind: Kind, owned: Scope, faulty: set<Resource>): State {
    State(kind, owned, faulty, Unmade, None, false, Unmade, false, Starting, [], false, {}, {}, [])
  }

  function Acquire(s: State, resources: set<Resource>): State {
    s.(held := s.held + resources, late := if s.cancelled then s.late + resources else s.late)
  }

  function Attempts(held: set<Resource>, r: Resource): seq<Resource> {
    if r in held then [r] else []
  }

  /** The order in which cleanup goes about it. */
  function InOrder(held: set<Resource>): seq<Resource> {
    Attempts(held, StateListener) + Attempts(held, Dedicated) + Attempts(held, Shared) + Attempts(held, Port1) + Attempts(held, Port2)
  }

  /** unregister, up to its first await: the promise it leaves and the calls it makes. */
  function Unregister(s: State, scope: Scope): (Promise, State) {
    if scope != s.owned then (Settled(false), s) else (Unregistering, s.(calls := s.calls + [scope]))
  }

  /** cleanup, up to its first await. */
  function Cleanup(s: State): State {
    if s.cleaning != Unmade then s
    else
      var t := s.(cancelled := true, released := s.released + InOrder(s.held), failed := s.held * s.faulty != {});
      match s.registration
      case Some(scope) => var (p, u) := Unregister(t, scope); u.(cleaning := p)
      case None => t.(cleaning := if s.registering != Unmade then Waiting else Settled(!t.failed))
  }

  /** The continuation of a granted registration, up to its first await. */
  function Granted(s: State, scope: Scope): State {
    var t := s.(registration := Some(scope));
    if s.cancelled then
      var (p, u) := Unregister(t, scope);
      u.(registering := p)
    else t.(registering := Settled(true))
  }

  /** The capture leaves its try block. */
  function Finish(s: State): State {
    Cleanup(s).(main := AwaitingCleanup)
  }

  function Begun(s: State): State {
    match s.kind
    case DedicatedWorker => Acquire(s, {Dedicated}).(main := AwaitingReply)
    case SharedWorker => Acquire(s, {Shared}).(main := AwaitingReply)
    case ServiceWorker => s.(registering := Waiting, main := AwaitingRegistration)
  }

  predicate Enabled(s: State, e: Event) {
    match e
    case Start(_) => s.main == Starting
    case Resolves(_) => s.registering == Waiting
    case Rejects => s.registering == Waiting
    case HandlerAnswered(_) => s.registering == Unregistering
    case HandlerExpires => s.registering == Unregistering
    case CleanupAnswered(_) => s.cleaning == Unregistering
    case CleanupExpires => s.cleaning == Unregistering || s.cleaning == Waiting
    case CleanupWakes => s.cleaning == Waiting && s.registering.Settled?
    case MainWakes(_) => s.main == AwaitingRegistration && s.registering.Settled?
    case Activated => s.main == AwaitingState
    case MainEnds => s.main == AwaitingState || s.main == AwaitingReply
    case Deadline => InTry(s)
    case External => s.main != Starting
    case MainReturns => s.main == AwaitingCleanup && s.cleaning.Settled?
  }

  /** The capture is inside its try block. */
  predicate InTry(s: State) {
    s.main == AwaitingRegistration || s.main == AwaitingState || s.main == AwaitingReply
  }

  /** The capture goes on to make its listener, or its channel. */
  predicate GoesOn(s: State, e: Event) {
    (e.MainWakes? && e.installed && s.registering == Settled(true) && s.registration == Some(s.owned)) || e.Activated?
  }

  function Step(s: State, e: Event): State
    requires Enabled(s, e)
  {
    match e
    case Start(refused) => if refused then Finish(s) else Begun(s)
    case Resolves(scope) => Granted(s, scope)
    case Rejects => s.(registering := Settled(false))
    case HandlerAnswered(removed) => s.(registering := Settled(removed), removed := s.removed || removed)
    case HandlerExpires => s.(registering := Settled(false))
    case CleanupAnswered(removed) => s.(cleaning := Settled(removed && !s.failed), removed := s.removed || removed)
    case CleanupExpires => s.(cleaning := Settled(false))
    case CleanupWakes => s.(cleaning := Settled(s.registering.ok && !s.failed))
    case MainWakes(_) => if GoesOn(s, e) then Acquire(s, {StateListener}).(main := AwaitingState) else Finish(s)
    case Activated => Acquire(s, {Port1, Port2}).(main := AwaitingReply)
    case MainEnds => Finish(s)
    case Deadline => Finish(s)
    case External => Cleanup(s)
    case MainReturns => s.(main := Returned)
  }

  /** The events that need nothing from the browser: clocks running out and settled promises
      being noticed. */
  predicate OwnClock(e: Event) {
    e.HandlerExpires? || e.CleanupExpires? || e.CleanupWakes? || e.MainWakes? || e.Deadline? || e.MainReturns?
  }

  // ---------- what every interleaving keeps ----------

  predicate Inv(s: State) {
    && s.calls == (if s.registration == Some(s.owned) && s.cancelled then [s.owned] else [])
    && (s.cancelled <==> s.cleaning != Unmade)
    && (s.registration.Some? ==> s.registering == Unregistering || s.registering.Settled?)
    && (s.registering == Unregistering ==> s.registration == Some(s.owned) && s.cancelled && s.cleaning != Unregistering)
    && (s.cleaning == Unregistering ==> s.registration == Some(s.owned))
    && (s.registering == Settled(true) ==> s.registration.Some? && (s.cleaning == Waiting ==> s.removed))
    && (s.cleaning == Settled(true) ==> s.registering == Unmade || s.removed)
    && (s.removed ==> s.calls == [s.owned])
    && (s.main == Starting ==> s == Initial(s.kind, s.owned, s.faulty))
    && (s.registering == Unmade && s.cancelled ==> s.cleaning.Settled?)
    && (s.main == AwaitingRegistration ==> s.registering != Unmade)
    && (s.main == AwaitingCleanup || s.main == Returned ==> s.cancelled)
    && (s.main == Returned ==> s.cleaning.Settled?)
    && Holding(s)
  }

  /** What is held, late and released. */
  predicate Holding(s: State) {
    && s.late <= s.held
    && (!s.cancelled ==> s.late == {} && s.released == [] && !s.failed)
    && (s.cancelled ==> s.released == InOrder(s.held - s.late) && (s.failed <==> (s.held - s.late) * s.faulty != {}))
    && (s.cleaning == Settled(true) ==> !s.failed)
    && (s.main == AwaitingRegistration ==> s.held == {})
    && (s.main == AwaitingState ==> s.held == {StateListener})
  }

  lemma CleanupKeepsHolding(s: State)
    requires Holding(s) && (s.cancelled <==> s.cleaning != Unmade)
    ensures Holding(Cleanup(s)) && Holding(Finish(s))
  {
    assert s.held - {} == s.held;
    assert [] + InOrder(s.held) == InOrder(s.held);
  }

  lemma AcquireKeepsHolding(s: State, resources: set<Resource>, main: Main)
    requires Holding(s) && s.held !! resources && (s.cancelled <==> s.cleaning != Unmade)
    requires main != AwaitingRegistration && (main == AwaitingState ==> s.held + resources == {StateListener})
    ensures Holding(Acquire(s, resources).(main := main))
  {
    if s.cancelled {
      assert (s.held + resources) - (s.late + resources) == s.held - s.late;
    }
  }

  lemma StepKeepsHolding(s: State, e: Event)
    requires Inv(s) && Enabled(s, e)
    ensures Holding(Step(s, e))
  {
    CleanupKeepsHolding(s);
    match e
    case Start(_) =>
      AcquireKeepsHolding(s, {Dedicated}, AwaitingReply);
      AcquireKeepsHolding(s, {Shared}, AwaitingReply);
    case MainWakes(_) => AcquireKeepsHolding(s, {StateListener}, AwaitingState);
    case Activated => AcquireKeepsHolding(s, {Port1, Port2}, AwaitingReply);
    case _ =>
  }

  lemma StepKeepsInv(s: State, e: Event)
    requires Inv(s) && Enabled(s, e)
    ensures Inv(Step(s, e)) && Step(s, e).owned == s.owned && Step(s, e).faulty == s.faulty
  {
    StepKeepsHolding(s, e);
  }

  predicate Legal(s: State, es: seq<Event>)
    decreases |es|
  {
    es == [] || (Enabled(s, es[0]) && Legal(Step(s, es[0]), es[1..]))
  }

  function After(s: State, es: seq<Event>): State
    requires Legal(s, es)
    decreases |es|
  {
    if es == [] then s else After(Step(s, es[0]), es[1..])
  }

  lemma {:induction false} RunKeepsInv(s: State, es: seq<Event>)
    requires Inv(s) && Legal(s, es)
    ensures Inv(After(s, es)) && After(s, es).owned == s.owned && After(s, es).faulty == s.faulty
    decreases |es|
  {
    if es != [] {
      StepKeepsInv(s, es[0]);
      RunKeepsInv(Step(s, es[0]), es[1..]);
    }
  }

  /** In every interleaving, a registration granted with the owned scope gets exactly one call of
      unregister once cleanup was called or the capture has left its try block, before that none;
      a registration of another scope never gets one. */
  lemma ExactlyOneUnregister(kind: Kind, owned: Scope, faulty: set<Resource>, es: seq<Event>)
    requires Legal(Initial(kind, owned, faulty), es)
    ensures var s := After(Initial(kind, owned, faulty), es);
            && (s.registration == Some(owned) && (s.cancelled || s.main in {AwaitingCleanup, Returned}) ==> s.calls == [owned])
            && (s.registration != Some(owned) || !s.cancelled ==> s.calls == [])
  {
    RunKeepsInv(Initial(kind, owned, faulty), es);
  }

  /** When cleanup reports success, nothing was ever registered or the owned registration was
      reported removed, and whatever cleanup attempted to release was released. */
  lemma CleanupTellsTheTruth(kind: Kind, owned: Scope, faulty: set<Resource>, es: seq<Event>)
    requires Legal(Initial(kind, owned, faulty), es) && After(Initial(kind, owned, faulty), es).cleaning == Settled(true)
    ensures var s := After(Initial(kind, owned, faulty), es);
            && ((s.registering == Unmade && s.registration.None?) || (s.removed && s.registration == Some(owned) && s.calls == [owned]))
            && forall r <- s.released :: r !in faulty
  {
    RunKeepsInv(Initial(kind, owned, faulty), es);
    var s := After(Initial(kind, owned, faulty), es);
    InOrderExactly(s.held - s.late);
    assert forall r <- s.released :: r in faulty ==> r in (s.held - s.late) * s.faulty;
  }

  // ---------- what is given back ----------

  lemma InOrderExactly(held: set<Resource>)
    ensures forall r :: r in InOrder(held) <==> r in held
    ensures forall i, j :: 0 <= i < j < |InOrder(held)| ==> InOrder(held)[i] != InOrder(held)[j]
  {
    forall r ensures r in InOrder(held) <==> r in held {
      match r
      case StateListener =>
      case Dedicated =>
      case Shared =>
      case Port1 =>
      case Port2 =>
    }
  }

  /** Cleanup attempts to release each resource at most once, and those the capture held when
      cleanup was called are the ones; what it acquired later is never released. */
  lemma ReleasedOnce(kind: Kind, owned: Scope, faulty: set<Resource>, es: seq<Event>)
    requires Legal(Initial(kind, owned, faulty), es)
    ensures var s := After(Initial(kind, owned, faulty), es);
            && (forall i, j :: 0 <= i < j < |s.released| ==> s.released[i] != s.released[j])
            && (forall r :: r in s.released <==> s.cancelled && r in s.held && r !in s.late)
  {
    RunKeepsInv(Initial(kind, owned, faulty), es);
    var s := After(Initial(kind, owned, faulty), es);
    InOrderExactly(s.held - s.late);
  }

  /** The k-th event takes a capture on whose cleanup has been called already. */
  predicate GoesOnAt(s: State, es: seq<Event>, k: nat)
    requires Legal(s, es) && k < |es|
    decreases |es|
  {
    if k == 0 then s.cancelled && GoesOn(s, es[0]) else GoesOnAt(Step(s, es[0]), es[1..], k - 1)
  }

  /** The capture goes on at some time although cleanup has been called. */
  predicate WentOn(s: State, es: seq<Event>)
    requires Legal(s, es)
  {
    exists k :: 0 <= k < |es| && GoesOnAt(s, es, k)
  }

  lemma WentOnUnfolds(s: State, es: seq<Event>)
    requires es != [] && Legal(s, es)
    ensures WentOn(s, es) <==> (s.cancelled && GoesOn(s, es[0])) || WentOn(Step(s, es[0]), es[1..])
  {
    var t := Step(s, es[0]);
    assert GoesOnAt(s, es, 0) <==> s.cancelled && GoesOn(s, es[0]);
    forall k: nat | 0 < k < |es| ensures GoesOnAt(s, es, k) <==> GoesOnAt(t, es[1..], k - 1) {
    }
    if WentOn(t, es[1..]) {
      var k :| 0 <= k < |es[1..]| && GoesOnAt(t, es[1..], k);
      assert GoesOnAt(s, es, k + 1);
    }
  }

  /** Something is acquired after cleanup exactly if the capture goes on after cleanup. */
  lemma {:induction false} LateExactly(s: State, es: seq<Event>)
    requires Inv(s) && Legal(s, es)
    ensures After(s, es).late != {} <==> s.late != {} || WentOn(s, es)
    decreases |es|
  {
    if es != [] {
      StepKeepsInv(s, es[0]);
      StepLate(s, es[0]);
      LateExactly(Step(s, es[0]), es[1..]);
      WentOnUnfolds(s, es);
    }
  }

  lemma StepLate(s: State, e: Event)
    requires Inv(s) && Enabled(s, e)
    ensures Step(s, e).late != {} <==> s.late != {} || (s.cancelled && GoesOn(s, e))
  {
    assert e == Activated ==> Port1 in {Port1, Port2};
    assert StateListener in {StateListener};
  }

  /** Once the capture has left its try block, all it acquired has been released, exactly if it
      never went on after cleanup had been called. */
  lemma AllReleasedExactly(kind: Kind, owned: Scope, faulty: set<Resource>, es: seq<Event>)
    requires Legal(Initial(kind, owned, faulty), es) && After(Initial(kind, owned, faulty), es).main in {AwaitingCleanup, Returned}
    ensures var s := After(Initial(kind, owned, faulty), es);
            (forall r <- s.held :: r in s.released) <==> !WentOn(Initial(kind, owned, faulty), es)
  {
    RunKeepsInv(Initial(kind, owned, faulty), es);
    ReleasedOnce(kind, owned, faulty, es);
    LateExactly(Initial(kind, owned, faulty), es);
  }

  /** So a capture left to itself gives everything back: with no outside call of cleanup while it
      is in its try block, nothing it acquires escapes. */
  lemma LeftAloneReleasesAll(kind: Kind, owned: Scope, faulty: set<Resource>, es: seq<Event>)
    requires Legal(Initial(kind, owned, faulty), es) && After(Initial(kind, owned, faulty), es).main in {AwaitingCleanup, Returned}
    requires Undisturbed(Initial(kind, owned, faulty), es)
    ensures var s := After(Initial(kind, owned, faulty), es); forall r <- s.held :: r in s.released
  {
    AllReleasedExactly(kind, owned, faulty, es);
    UndisturbedStops(Initial(kind, owned, faulty), es);
  }

  /** Nobody else calls cleanup while the capture is in its try block. */
  predicate Undisturbed(s: State, es: seq<Event>)
    requires Legal(s, es)
    decreases |es|
  {
    es != [] ==> !(es[0].External? && InTry(s)) && Undisturbed(Step(s, es[0]), es[1..])
  }

  lemma {:induction false} UndisturbedStops(s: State, es: seq<Event>)
    requires Inv(s) && Legal(s, es) && Undisturbed(s, es) && (s.cancelled ==> !InTry(s))
    ensures !WentOn(s, es)
    decreases |es|
  {
    if es != [] {
      WentOnUnfolds(s, es);
      StepKeepsInv(s, es[0]);
      UndisturbedStops(Step(s, es[0]), es[1..]);
    }
  }

  /** Disturbed at the wrong moment it does not: cleanup called while the registration is pending
      reports success, and the listener and the channel made afterwards stay for good. */
  lemma EarlyCleanupLeaks(owned: Scope)
    ensures var es := EARLY(owned) + GOING_ON;
            Legal(Initial(ServiceWorker, owned, {}), es)
            && var s := After(Initial(ServiceWorker, owned, {}), es);
               s.main == Returned && s.cleaning == Settled(true) && s.held == {StateListener, Port1, Port2} && s.released == []
  {
    CleanedEarly(owned);
    GoneOn(After(Initial(ServiceWorker, owned, {}), EARLY(owned)));
    Chain(Initial(ServiceWorker, owned, {}), EARLY(owned), GOING_ON);
  }

  /** Cleanup is called while the registration is pending, and unregisters it once granted. */
  function EARLY(owned: Scope): seq<Event> {
    [Start(false), External, Resolves(owned), HandlerAnswered(true), CleanupWakes]
  }

  /** The capture has not noticed and sets up its channel. */
  const GOING_ON: seq<Event> := [MainWakes(true), Activated, MainEnds, MainReturns]

  lemma CleanedEarly(owned: Scope)
    ensures Legal(Initial(ServiceWorker, owned, {}), EARLY(owned))
    ensures var s := After(Initial(ServiceWorker, owned, {}), EARLY(owned));
            && s.registering == Settled(true) && s.registration == Some(s.owned) && s.cleaning == Settled(true) && s.main == AwaitingRegistration
            && s.held == {} && s.released == []
  {
    var s0 := Initial(ServiceWorker, owned, {});
    var s1 := Step(s0, Start(false));
    var s2 := Step(s1, External);
    var s3 := Step(s2, Resolves(owned));
    var s4 := Step(s3, HandlerAnswered(true));
    Then(s4, CleanupWakes, []);
    Then(s3, HandlerAnswered(true), [CleanupWakes]);
    Then(s2, Resolves(owned), [HandlerAnswered(true), CleanupWakes]);
    Then(s1, External, [Resolves(owned), HandlerAnswered(true), CleanupWakes]);
    Then(s0, Start(false), [External, Resolves(owned), HandlerAnswered(true), CleanupWakes]);
  }

  lemma GoneOn(s: State)
    requires s.registering == Settled(true) && s.registration == Some(s.owned) && s.cleaning == Settled(true) && s.main == AwaitingRegistration
    requires s.held == {} && s.released == []
    ensures Legal(s, GOING_ON)
    ensures var t := After(s, GOING_ON);
            t.main == Returned && t.cleaning == Settled(true) && t.held == {StateListener, Port1, Port2} && t.released == []
  {
    var s1 := Step(s, MainWakes(true));
    var s2 := Step(s1, Activated);
    var s3 := Step(s2, MainEnds);
    Then(s3, MainReturns, []);
    Then(s2, MainEnds, [MainReturns]);
    Then(s1, Activated, [MainEnds, MainReturns]);
    Then(s, MainWakes(true), [Activated, MainEnds, MainReturns]);
  }

  lemma Then(s: State, e: Event, es: seq<Event>)
    requires Enabled(s, e) && Legal(Step(s, e), es)
    ensures Legal(s, [e] + es) && After(s, [e] + es) == After(Step(s, e), es)
  {
    assert ([e] + es)[1..] == es;
  }

  lemma {:induction false} Chain(s: State, a: seq<Event>, b: seq<Event>)
    requires Legal(s, a) && Legal(After(s, a), b)
    ensures Legal(s, a + b) && After(s, a + b) == After(After(s, a), b)
    decreases |a|
  {
    if a == [] {
      assert a + b == b;
    } else {
      Chain(Step(s, a[0]), a[1..], b);
      assert (a + b)[1..] == a[1..] + b;
    }
  }

  // ---------- every capture returns ----------

  function Weight(p: Promise): nat {
    match p
    case Unmade => 3
    case Waiting => 2
    case Unregistering => 1
    case Settled(_) => 0
  }

  function MainWeight(m: Main): nat {
    match m
    case Starting => 5
    case AwaitingRegistration => 4
    case AwaitingState => 3
    case AwaitingReply => 2
    case AwaitingCleanup => 1
    case Returned => 0
  }

  function Rank(s: State): nat {
    Weight(s.registering) + Weight(s.cleaning) + MainWeight(s.main)
  }

  /** Every event brings the end nearer, except a repeated call of cleanup, which changes nothing. */
  lemma StepLowersRank(s: State, e: Event)
    requires Inv(s) && Enabled(s, e)
    ensures if e.External? && s.cleaning != Unmade then Step(s, e) == s else Rank(Step(s, e)) < Rank(s)
  {
  }

  /** The events of a run that are not repeated calls of cleanup. */
  function Effective(s: State, es: seq<Event>): nat
    requires Legal(s, es)
    decreases |es|
  {
    if es == [] then 0
    else (if es[0].External? && s.cleaning != Unmade then 0 else 1) + Effective(Step(s, es[0]), es[1..])
  }

  lemma {:induction false} RunsAreShort(s: State, es: seq<Event>)
    requires Inv(s) && Legal(s, es)
    ensures Effective(s, es) + Rank(After(s, es)) <= Rank(s)
    decreases |es|
  {
    if es != [] {
      StepKeepsInv(s, es[0]);
      StepLowersRank(s, es[0]);
      RunsAreShort(Step(s, es[0]), es[1..]);
    }
  }

  /** A capture that has started and not returned can always go on by its own clocks, even if
      the browser never answers; so within eleven events it has returned. */
  lemma CaptureReturns(kind: Kind, owned: Scope, faulty: set<Resource>, es: seq<Event>)
    requires Legal(Initial(kind, owned, faulty), es)
    ensures var s := After(Initial(kind, owned, faulty), es);
            && Effective(Initial(kind, owned, faulty), es) <= 11
            && (s.main != Starting && s.main != Returned ==> exists e :: OwnClock(e) && Enabled(s, e))
  {
    RunKeepsInv(Initial(kind, owned, faulty), es);
    RunsAreShort(Initial(kind, owned, faulty), es);
    var s := After(Initial(kind, owned, faulty), es);
    if InTry(s) {
      assert OwnClock(Deadline) && Enabled(s, Deadline);
    } else if s.main == AwaitingCleanup {
      if s.cleaning.Settled? {
        assert OwnClock(MainReturns) && Enabled(s, MainReturns);
      } else if s.cleaning == Waiting || s.cleaning == Unregistering {
        assert OwnClock(CleanupExpires) && Enabled(s, CleanupExpires);
      }
    }
  }

  // ---------- the closures over the capture's variables ----------

  class WorkerCapture {
    const kind: Kind
    const owned: Scope
    const faulty: set<Resource>
    var registering: Promise
    var registration: Option<Scope>
    var cancelled: bool
    var cleaning: Promise
    var failed: bool
    var main: Main
    var held: set<Resource>
    ghost var calls: seq<Scope>
    ghost var removed: bool
    ghost var late: set<Resource>
    ghost var released: seq<Resource>

    ghost function View(): State
      reads this
    {
      State(kind, owned, faulty, registering, registration, cancelled, cleaning, failed, main, calls, removed, held, late, released)
    }

    constructor (kind: Kind, owned: Scope, faulty: set<Resource>)
      ensures View() == Initial(kind, owned, faulty)
    {
      this.kind, this.owned, this.faulty := kind, owned, faulty;
      registering, registration, cancelled, cleaning, failed, main, held := Unmade, None, false, Unmade, false, Starting, {};
      calls, removed, late, released := [], false, {}, [];
    }

    method UnregisterOwned(scope: Scope) returns (p: Promise)
      modifies this`calls
      ensures (p, View()) == Unregister(old(View()), scope)
    {
      if scope != owned {
        return Settled(false);
      }
      calls := calls + [scope];
      p := Unregistering;
    }

    /** attempt, for one resource: whether it threw is noted and cleanup goes on. */
    method Attempt(r: Resource)
      modifies this`released, this`failed
      ensures released == old(released) + Attempts(held, r)
      ensures failed <==> old(failed) || (r in held && r in faulty)
    {
      if r in held {
        released := released + [r];
        if r in faulty {
          failed := true;
        }
      }
    }

    /** The attempts, in their order. */
    method ReleaseHeld()
      requires !failed
      modifies this`released, this`failed
      ensures released == old(released) + InOrder(held)
      ensures failed <==> held * faulty != {}
    {
      Attempt(StateListener);
      Attempt(Dedicated);
      Attempt(Shared);
      Attempt(Port1);
      Attempt(Port2);
      FaultFound(held, faulty);
    }

    /** cleanup; calling it again gives the promise already made. */
    method CleanUp()
      requires Inv(View())
      modifies this`cancelled, this`cleaning, this`calls, this`released, this`failed
      ensures View() == Cleanup(old(View()))
    {
      if cleaning != Unmade {
        return;
      }
      cancelled := true;
      ReleaseHeld();
      if registration.Some? {
        cleaning := UnregisterOwned(registration.value);
      } else if registering != Unmade {
        cleaning := Waiting;
      } else {
        cleaning := Settled(!failed);
      }
    }

    /** The continuation of register(). */
    method OnGranted(scope: Scope)
      requires Inv(View()) && Enabled(View(), Resolves(scope))
      modifies this`registration, this`registering, this`calls
      ensures View() == Step(old(View()), Resolves(scope)) && Inv(View())
    {
      StepKeepsInv(View(), Resolves(scope));
      registration := Some(scope);
      if cancelled {
        registering := UnregisterOwned(scope);
      } else {
        registering := Settled(true);
      }
    }

    /** The service worker is active: the channel to it is made. */
    method OnActivated()
      requires Inv(View()) && Enabled(View(), Activated)
      modifies this`held, this`late, this`main
      ensures View() == Step(old(View()), Activated) && Inv(View())
    {
      StepKeepsInv(View(), Activated);
      held := held + {Port1, Port2};
      late := if cancelled then late + {Port1, Port2} else late;
      main := AwaitingReply;
    }

    /** The finally block. */
    method LeaveTry()
      requires Inv(View()) && InTry(View())
      modifies this
      ensures View() == Step(old(View()), Deadline) && Inv(View())
    {
      StepKeepsInv(View(), Deadline);
      CleanUp();
      main := AwaitingCleanup;
    }
  }

  lemma FaultFound(held: set<Resource>, faulty: set<Resource>)
    ensures held * faulty != {}
            <==> exists r <- {StateListener, Dedicated, Shared, Port1, Port2} :: r in held && r in faulty
  {
    if held * faulty != {} {
      var r :| r in held * faulty;
      assert r == StateListener || r == Dedicated || r == Shared || r == Port1 || r == Port2;
    }
    if r :| r in {StateListener, Dedicated, Shared, Port1, Port2} && r in held && r in faulty {
      assert r in held * faulty;
    }
  }
}
