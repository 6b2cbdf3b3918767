/**
  Ownership of models and middleware controllers by the graph cache of one agent session.

  The cache runs in one event loop, so code between two awaits is atomic. `OwnerStep` gives
  the effect of each such piece of code in the tasks that build and use graphs, `PassStep`
  that of the collection pass; `Run` lets all of them interleave in any order. An event that
  is not enabled has no effect.
 */
module GraphCache {
  import opened Wrappers

  /** The identity of a Python object, as `id()` gives it while the object is alive */
  type Id = nat

  /** Something to close: a model's client, or a middleware that has a `close` method */
  datatype Resource = Model(id: Id) | Controller(id: Id)

  /** The fields of a `GraphResources` object */
  datatype Scope = Scope(resources: set<Resource>, sealed: bool) {
    function Controllers(): set<Resource> {
      set r | r in resources && r.Controller?
    }
  }

  datatype Phase = ClosingControllers | ClosingModels

  /**
    The frame of the collection pass that holds the collection lock: the retired scopes it
    started from, those not yet visited, the items left of the scope it is visiting, what it
    has attempted, and the resource whose close it awaits. `attempts` logs the started closes.
   */
  datatype Pass = Pass(
    phase: Phase, snapshot: set<Id>, todo: set<Id>, items: set<Resource>,
    attempted: set<Resource>, awaiting: Option<Resource>, attempts: seq<Resource>)
  {
    predicate OfPhase(r: Resource) {
      r.Controller? <==> phase == ClosingControllers
    }
  }

  datatype State = State(
    scopes: map<Id, Scope>,
    building: set<Id>, retired: set<Id>, current: Option<Id>, sealed: bool,
    pass: Option<Pass>,
    reviewing: bool,             // a background review is using the session's models
    registered: set<Resource>,   // history: everything ever registered
    closed: seq<Resource>,       // history: successful closes, in order
    controllersSealed: set<Resource>)
  {
    predicate IsActiveScope(k: Id) {
      k in building || current == Some(k)
    }

    predicate Owns(k: Id) {
      IsActiveScope(k) || k in retired
    }

    predicate InScope(k: Id, r: Resource) {
      k in scopes && r in scopes[k].resources
    }

    /** Some building or current scope lists the resource. */
    predicate IsActive(r: Resource) {
      exists k :: k in scopes && IsActiveScope(k) && InScope(k, r)
    }

    /** Some building, current or retired scope lists the resource. */
    predicate IsListed(r: Resource) {
      exists k :: k in scopes && Owns(k) && InScope(k, r)
    }

    /** A retired scope lists the resource and still has a controller that is not closed. */
    predicate IsPending(r: Resource) {
      exists k :: k in retired && InScope(k, r) && scopes[k].Controllers() != {}
    }

    predicate InFlight(r: Resource) {
      pass.Some? && pass.value.awaiting == Some(r)
    }

    /** Calls `seal` on the given scopes. */
    function SealScopes(ks: set<Id>): State {
      this.(
        scopes := map k | k in scopes :: if k in ks then scopes[k].(sealed := true) else scopes[k],
        controllersSealed := controllersSealed + set k, r | k in ks && k in scopes && r in scopes[k].Controllers() :: r)
    }

    /** `own_model` of any scope, whatever the state of the model */
    function WithModel(k: Id, m: Id): State
      requires k in scopes
    {
      this.(scopes := scopes[k := scopes[k].(resources := scopes[k].resources + {Model(m)})],
            registered := registered + {Model(m)})
    }

    /** `own_middlewares` of any scope */
    function WithControllers(k: Id, controllers: set<Resource>): State
      requires k in scopes
    {
      var scope := scopes[k].(resources := scopes[k].resources + controllers);
      this.(scopes := scopes[k := scope], registered := registered + controllers,
            controllersSealed := controllersSealed + if scope.sealed then scope.Controllers() else {})
    }

    /** `publish` of any scope, in a cache that is not sealed */
    function WithCurrent(k: Id): State {
      this.(retired := if current.Some? && current != Some(k) then retired + {current.value} else retired,
            current := Some(k), building := building - {k})
    }

    /** `for group in self._retired.values(): group.….pop(identity, None)` */
    function DropFromRetired(r: Resource): State {
      this.(scopes := map k | k in scopes ::
        if k in retired then scopes[k].(resources := scopes[k].resources - {r}) else scopes[k])
    }
  }

  const EMPTY := State(map[], {}, {}, None, false, None, false, {}, [], {})

  /** A middleware: its identity, and whether it has a `close` method */
  datatype Middleware = Middleware(id: Id, closeable: bool)

  /** The controllers among the given middlewares; the others own nothing and are not registered. */
  function Controllers(middlewares: seq<Middleware>): set<Resource> {
    set i | 0 <= i < |middlewares| && middlewares[i].closeable :: Controller(middlewares[i].id)
  }

  datatype OwnerEvent =
    | Build(scope: Id)                        // entering `async with cache.build()`
    | OwnModel(scope: Id, model: Id)
    | OwnMiddlewares(scope: Id, middlewares: seq<Middleware>)
    | Publish(scope: Id)
    | LeaveBuild(scope: Id)                   // the `finally` of `build`, up to `collect`
    | Retire
    | Seal
    | Review(active: bool)                    // a background review starts or ends

  datatype PassEvent =
    | StartPass                               // `collect` has taken the lock
    | OpenScope(scope: Id)                    // the outer loop reaches a scope and copies its items
    | Visit(resource: Resource)               // the inner loop reaches an item
    | CloseReturns(ok: bool)                  // the awaited close returns; a failure counts as False
    | CancelPass                              // the task is cancelled while it awaits a close
    | EndPhase

  datatype Event = Owner(owner: OwnerEvent) | Collector(collector: PassEvent)

  /**
    When a piece of code can run. Two clauses are assumptions about the callers of the cache,
    not checks it makes: resources are added only to a scope that is being built, and never
    while their close is in flight or after they were closed.
   */
  predicate OwnerEnabled(s: State, e: OwnerEvent) {
    match e
    case Build(k) => !s.sealed && k !in s.scopes
    case OwnModel(k, m) => CanOwn(s, k, Model(m))
    case OwnMiddlewares(k, ms) =>
      k in s.building && k in s.scopes && forall r :: r in Controllers(ms) ==> CanOwn(s, k, r)
    case Publish(k) => !s.sealed && k in s.scopes && s.IsActiveScope(k)
    case LeaveBuild(k) => k in s.building
    case Retire => s.current.Some?
    case Seal => true
    case Review(_) => true
  }

  predicate CanOwn(s: State, k: Id, r: Resource) {
    k in s.building && k in s.scopes && r !in s.closed && !s.InFlight(r)
  }

  function OwnerStep(s: State, e: OwnerEvent): State {
    if !OwnerEnabled(s, e) then s
    else
      match e
      case Build(k) => s.(scopes := s.scopes[k := Scope({}, false)], building := s.building + {k})
      case OwnModel(k, m) => s.WithModel(k, m)
      case OwnMiddlewares(k, ms) => s.WithControllers(k, Controllers(ms))
      case Publish(k) => s.WithCurrent(k)
      case LeaveBuild(k) => s.(building := s.building - {k}, retired := s.retired + {k})
      case Retire => s.(retired := s.retired + {s.current.value}, current := None)
      case Seal =>
        s.SealScopes(set k | k in s.scopes && s.Owns(k)).(sealed := true)
      case Review(active) => s.(reviewing := active)
  }

  predicate PassEnabled(s: State, e: PassEvent) {
    if s.pass.None? then e.StartPass?
    else
      var p := s.pass.value;
      match e
      case StartPass => false
      case OpenScope(k) => p.awaiting.None? && p.items == {} && k in p.todo && k in s.scopes
      case Visit(r) => p.awaiting.None? && r in p.items
      case CloseReturns(_) => p.awaiting.Some?
      case CancelPass => p.awaiting.Some?
      case EndPhase => p.awaiting.None? && p.items == {} && p.todo == {}
  }

  function PassStep(s: State, e: PassEvent): State {
    if !PassEnabled(s, e) then s
    else
      match e
      case StartPass => s.(pass := Some(Pass(ClosingControllers, s.retired, s.retired, {}, {}, None, [])))
      case OpenScope(k) =>
        var p := s.pass.value;
        s.(pass := Some(p.(todo := p.todo - {k}, items := set r | r in s.scopes[k].resources && p.OfPhase(r))))
      case Visit(r) => VisitItem(s, s.pass.value, r)
      case CloseReturns(ok) => FinishClose(s, s.pass.value, ok)
      case CancelPass => s.(pass := None)
      case EndPhase =>
        var p := s.pass.value;
        if p.phase == ClosingControllers then
          s.(pass := Some(p.(phase := ClosingModels, todo := p.snapshot, attempted := {})))
        else
          s.(pass := None,
             retired := set k | k in s.retired && !(k in p.snapshot && k in s.scopes && s.scopes[k].resources == {}))
  }

  /** The body of the inner loops: skip what was attempted, hand over what is still active, else close. */
  function VisitItem(s: State, p: Pass, r: Resource): State {
    var p1 := p.(items := p.items - {r});
    if r in p.attempted then s.(pass := Some(p1))
    else
      var p2 := p1.(attempted := p.attempted + {r});
      if s.IsActive(r) then s.(pass := Some(p2)).DropFromRetired(r)
      else if r.Model? && (s.IsPending(r) || s.reviewing) then s.(pass := Some(p2))
      else s.(pass := Some(p2.(awaiting := Some(r), attempts := p.attempts + [r])))
  }

  function FinishClose(s: State, p: Pass, ok: bool): State
    requires p.awaiting.Some?
  {
    var r := p.awaiting.value;
    var s1 := s.(pass := Some(p.(awaiting := None)));
    if ok then s1.(closed := s.closed + [r]).DropFromRetired(r) else s1
  }

  function Next(s: State, e: Event): State {
    match e
    case Owner(o) => OwnerStep(s, o)
    case Collector(c) => PassStep(s, c)
  }

  function Run(s: State, events: seq<Event>): State
    decreases |events|
  {
    if events == [] then s else Run(Next(s, events[0]), events[1..])
  }

  ghost predicate NoDuplicates(rs: seq<Resource>) {
    forall i, j :: 0 <= i < j < |rs| ==> rs[i] != rs[j]
  }

  // ----- the invariant

  /** A scope is in at most one of the three places. */
  ghost predicate ScopesDisjoint(s: State) {
    && (forall k :: k in s.building ==> k !in s.retired && s.current != Some(k))
    && (forall k :: k in s.retired ==> s.current != Some(k))
    && (forall k :: s.Owns(k) ==> k in s.scopes)
  }

  /** Owned scopes list registered resources that are not closed, and all of them. */
  ghost predicate ListsWhatIsOpen(s: State) {
    && (forall k, r :: s.Owns(k) && s.InScope(k, r) ==> r in s.registered && r !in s.closed)
    && (forall r :: r in s.registered && r !in s.closed ==> s.IsListed(r))
  }

  ghost predicate ClosedOnce(s: State) {
    NoDuplicates(s.closed) && forall r :: r in s.closed ==> r in s.registered
  }

  /** The collection pass only handles retired scopes and, once per phase, resources that are open. */
  ghost predicate PassConsistent(s: State) {
    s.pass.Some? ==>
      var p := s.pass.value;
      && p.todo <= p.snapshot <= s.retired
      && (forall r :: r in p.items ==> r in s.registered && p.OfPhase(r) && (r in p.attempted || r !in s.closed))
      && (forall r :: r in p.attempts ==> if p.OfPhase(r) then r in p.attempted else r.Controller?)
      && NoDuplicates(p.attempts)
  }

  /** What holds of a resource from the moment its close is started until it returns. */
  ghost predicate MayBeClosing(s: State, r: Resource) {
    && s.pass.Some? && s.pass.value.OfPhase(r) && r in s.pass.value.attempted
    && r in s.registered && r !in s.closed
    && !s.IsActive(r)
    && (r.Model? ==> !s.IsPending(r))
  }

  ghost predicate ClosesSafely(s: State) {
    forall r :: s.InFlight(r) ==> MayBeClosing(s, r)
  }

  /** Once the cache is sealed, so is every scope it owns and every controller listed there. */
  ghost predicate SealReachesAll(s: State) {
    s.sealed ==> forall k :: k in s.scopes && s.Owns(k) ==>
      s.scopes[k].sealed && s.scopes[k].Controllers() <= s.controllersSealed
  }

  ghost predicate Invariant(s: State) {
    && ScopesDisjoint(s) && ListsWhatIsOpen(s) && ClosedOnce(s)
    && PassConsistent(s) && ClosesSafely(s) && SealReachesAll(s)
  }

  // ----- the tasks that build and use graphs keep it

  /** They never take a resource out of a scope, nor a scope out of the cache. */
  lemma OwnersOnlyAdd(s: State, e: OwnerEvent, k: Id, r: Resource)
    requires ScopesDisjoint(s) && s.Owns(k)
    ensures OwnerStep(s, e).Owns(k) && k in OwnerStep(s, e).scopes
    ensures s.InScope(k, r) ==> OwnerStep(s, e).InScope(k, r)
  {
  }

  /** What they add is a registered resource whose close was never started, in an active scope. */
  lemma OwnersAddOpen(s: State, e: OwnerEvent, k: Id, r: Resource)
    requires ScopesDisjoint(s) && OwnerStep(s, e).Owns(k) && OwnerStep(s, e).InScope(k, r)
    ensures (s.Owns(k) && s.InScope(k, r)) || Registers(s, e, k, r)
  {
  }

  predicate Registers(s: State, e: OwnerEvent, k: Id, r: Resource) {
    && OwnerEnabled(s, e)
    && ((r.Model? && e == OwnModel(k, r.id))
        || (e.OwnMiddlewares? && e.scope == k && r in Controllers(e.middlewares)))
  }

  lemma OwnersKeepScopes(s: State, e: OwnerEvent)
    requires ScopesDisjoint(s)
    ensures ScopesDisjoint(OwnerStep(s, e))
  {
  }

  lemma OwnersKeepListing(s: State, e: OwnerEvent)
    requires ScopesDisjoint(s) && ListsWhatIsOpen(s)
    ensures ListsWhatIsOpen(OwnerStep(s, e))
  {
    var s' := OwnerStep(s, e);
    assert s'.closed == s.closed;
    forall k, r | s'.Owns(k) && s'.InScope(k, r) ensures r in s'.registered && r !in s'.closed {
      OwnersAddOpen(s, e, k, r);
    }
    forall r | r in s'.registered && r !in s'.closed ensures s'.IsListed(r) {
      if r in s.registered {
        var k :| k in s.scopes && s.Owns(k) && s.InScope(k, r);
        OwnersOnlyAdd(s, e, k, r);
      } else {
        assert Registers(s, e, e.scope, r);
        assert s'.InScope(e.scope, r) && s'.Owns(e.scope);
      }
    }
  }

  lemma OwnersKeepPass(s: State, e: OwnerEvent)
    requires PassConsistent(s)
    ensures PassConsistent(OwnerStep(s, e))
  {
  }

  lemma OwnersKeepClosesSafe(s: State, e: OwnerEvent, r: Resource)
    requires ScopesDisjoint(s) && s.InFlight(r) && MayBeClosing(s, r)
    ensures MayBeClosing(OwnerStep(s, e), r)
  {
    var s' := OwnerStep(s, e);
    assert s'.pass == s.pass;
    if s'.IsActive(r) {
      var k :| k in s'.scopes && s'.IsActiveScope(k) && s'.InScope(k, r);
      OwnersAddOpen(s, e, k, r);
      assert s.IsActiveScope(k);
    }
    if s'.IsPending(r) {
      var k :| k in s'.retired && s'.InScope(k, r) && s'.scopes[k].Controllers() != {};
      OwnersAddOpen(s, e, k, r);
      OwnersKeepControllers(s, e, k);
      assert k in s.retired;
    }
  }

  lemma OwnersKeepControllers(s: State, e: OwnerEvent, k: Id)
    requires ScopesDisjoint(s) && k in s.scopes && k !in s.building
    ensures k in OwnerStep(s, e).scopes && OwnerStep(s, e).scopes[k].resources == s.scopes[k].resources
  {
  }

  lemma OwnersKeepSeal(s: State, e: OwnerEvent)
    requires ScopesDisjoint(s) && SealReachesAll(s)
    ensures SealReachesAll(OwnerStep(s, e))
  {
    var s' := OwnerStep(s, e);
    if s'.sealed {
      forall k | k in s'.scopes && s'.Owns(k)
        ensures s'.scopes[k].sealed && s'.scopes[k].Controllers() <= s'.controllersSealed
      {
        assert s.Owns(k) && k in s.scopes;
        if e.Seal? {
          assert s'.scopes[k].Controllers() == s.scopes[k].Controllers();
        }
      }
    }
  }

  // ----- the collection pass keeps it

  /** Only a resource that was closed, or that an active scope lists, leaves the retired scopes. */
  lemma PassDropsOnly(s: State, e: PassEvent, k: Id, r: Resource)
    requires ScopesDisjoint(s) && s.Owns(k) && s.InScope(k, r)
    requires r !in PassStep(s, e).closed
    requires s.IsActiveScope(k) || !s.IsActive(r)
    ensures PassStep(s, e).Owns(k) && PassStep(s, e).InScope(k, r)
  {
  }

  lemma PassAddsNothing(s: State, e: PassEvent, k: Id, r: Resource)
    requires ScopesDisjoint(s) && PassStep(s, e).Owns(k) && PassStep(s, e).InScope(k, r)
    ensures s.Owns(k) && s.InScope(k, r)
    ensures PassStep(s, e).IsActiveScope(k) <==> s.IsActiveScope(k)
    ensures PassStep(s, e).scopes[k].Controllers() <= s.scopes[k].Controllers()
    ensures e == CloseReturns(true) && s.InFlight(r) ==> s.IsActiveScope(k)
  {
  }

  lemma PassKeepsScopes(s: State, e: PassEvent)
    requires ScopesDisjoint(s)
    ensures ScopesDisjoint(PassStep(s, e))
  {
  }

  lemma PassCloses(s: State, e: PassEvent)
    ensures PassStep(s, e).registered == s.registered
    ensures PassStep(s, e).closed ==
            if e == CloseReturns(true) && s.pass.Some? && s.pass.value.awaiting.Some?
            then s.closed + [s.pass.value.awaiting.value] else s.closed
  {
  }

  lemma PassKeepsListing(s: State, e: PassEvent)
    requires ScopesDisjoint(s) && ListsWhatIsOpen(s) && ClosesSafely(s)
    ensures ListsWhatIsOpen(PassStep(s, e))
  {
    hide PassStep, ScopesDisjoint;
    var s' := PassStep(s, e);
    PassCloses(s, e);
    PassKeepsScopes(s, e);
    forall k, r | s'.Owns(k) && s'.InScope(k, r) ensures r in s'.registered && r !in s'.closed {
      assert s.InFlight(r) ==> !s.IsActive(r) by {
        assert s.InFlight(r) ==> MayBeClosing(s, r);
      }
      PassAddsNothing(s, e, k, r);
      assert s.IsActiveScope(k) ==> s.IsActive(r);
    }
    forall r | r in s'.registered && r !in s'.closed ensures s'.IsListed(r) {
      var k :| k in s.scopes && s.Owns(k) && s.InScope(k, r) && (s.IsActive(r) ==> s.IsActiveScope(k));
      PassDropsOnly(s, e, k, r);
    }
  }

  lemma PassKeepsClosedOnce(s: State, e: PassEvent)
    requires ClosedOnce(s) && ClosesSafely(s)
    ensures ClosedOnce(PassStep(s, e))
  {
    hide PassStep;
    PassCloses(s, e);
    if e == CloseReturns(true) && s.pass.Some? && s.pass.value.awaiting.Some? {
      assert s.InFlight(s.pass.value.awaiting.value);
    }
  }

  lemma OpenKeepsPass(s: State, k: Id)
    requires ScopesDisjoint(s) && ListsWhatIsOpen(s) && PassConsistent(s)
    ensures PassConsistent(PassStep(s, OpenScope(k)))
  {
    if PassEnabled(s, OpenScope(k)) {
      assert s.Owns(k);
      forall r | r in PassStep(s, OpenScope(k)).pass.value.items ensures r in s.registered && r !in s.closed {
        assert s.InScope(k, r);
      }
    }
  }

  lemma CloseKeepsPass(s: State, ok: bool)
    requires PassConsistent(s) && ClosesSafely(s)
    ensures PassConsistent(PassStep(s, CloseReturns(ok)))
  {
    if PassEnabled(s, CloseReturns(ok)) {
      assert s.InFlight(s.pass.value.awaiting.value);
    }
  }

  lemma VisitKeepsPass(s: State, r: Resource)
    requires PassConsistent(s)
    ensures PassConsistent(PassStep(s, Visit(r)))
  {
    hide State.IsActive, State.IsPending, State.DropFromRetired, NoDuplicates;
    if PassEnabled(s, Visit(r)) && r !in s.pass.value.attempted {
      AppendNew(s.pass.value.attempts, r);
      var pass := s.pass.value;
      DropKeepsRest(s.(pass := Some(pass.(items := pass.items - {r}, attempted := pass.attempted + {r}))), r);
    }
  }

  lemma AppendNew(rs: seq<Resource>, r: Resource)
    requires NoDuplicates(rs) && r !in rs
    ensures NoDuplicates(rs + [r])
  {
  }

  lemma DropKeepsRest(s: State, r: Resource)
    ensures s.DropFromRetired(r) == s.(scopes := s.DropFromRetired(r).scopes)
  {
  }

  lemma PassKeepsPass(s: State, e: PassEvent)
    requires ScopesDisjoint(s) && ListsWhatIsOpen(s) && PassConsistent(s) && ClosesSafely(s)
    ensures PassConsistent(PassStep(s, e))
  {
    hide VisitItem, FinishClose, ListsWhatIsOpen, ScopesDisjoint, ClosesSafely;
    match e
    case OpenScope(k) => OpenKeepsPass(s, k);
    case CloseReturns(ok) => CloseKeepsPass(s, ok);
    case Visit(r) => VisitKeepsPass(s, r);
    case StartPass =>
    case CancelPass =>
    case EndPhase => EndKeepsPass(s);
  }

  lemma EndKeepsPass(s: State)
    requires PassConsistent(s)
    ensures PassConsistent(PassStep(s, EndPhase))
  {
  }

  lemma PassKeepsClosesSafe(s: State, e: PassEvent)
    requires ScopesDisjoint(s) && PassConsistent(s) && ClosesSafely(s)
    ensures ClosesSafely(PassStep(s, e))
  {
    var s' := PassStep(s, e);
    forall r | s'.InFlight(r) ensures MayBeClosing(s', r) {
      assert s'.scopes == s.scopes && s'.building == s.building && s'.current == s.current && s'.retired == s.retired;
    }
  }

  lemma PassKeepsSeal(s: State, e: PassEvent)
    requires ScopesDisjoint(s) && SealReachesAll(s)
    ensures SealReachesAll(PassStep(s, e))
  {
    var s' := PassStep(s, e);
    forall k | s.sealed && k in s'.scopes && s'.Owns(k)
      ensures s'.scopes[k].sealed && s'.scopes[k].Controllers() <= s'.controllersSealed
    {
      assert s.Owns(k) && s'.scopes[k].Controllers() <= s.scopes[k].Controllers();
    }
  }

  // ----- every run keeps it

  lemma NextKeepsInvariant(s: State, e: Event)
    requires Invariant(s)
    ensures Invariant(Next(s, e))
  {
    hide OwnerStep, PassStep, ScopesDisjoint, ListsWhatIsOpen, ClosedOnce, PassConsistent, SealReachesAll, MayBeClosing;
    match e
    case Owner(o) =>
      OwnersKeepScopes(s, o);
      OwnersKeepListing(s, o);
      OwnersKeepPass(s, o);
      OwnersKeepSeal(s, o);
      OwnersKeepHistory(s, o);
      forall r | OwnerStep(s, o).InFlight(r) ensures MayBeClosing(OwnerStep(s, o), r) {
        OwnersKeepClosesSafe(s, o, r);
      }
    case Collector(c) =>
      PassKeepsScopes(s, c);
      PassKeepsListing(s, c);
      PassKeepsClosedOnce(s, c);
      PassKeepsPass(s, c);
      PassKeepsClosesSafe(s, c);
      PassKeepsSeal(s, c);
  }

  lemma OwnersKeepHistory(s: State, e: OwnerEvent)
    requires ClosedOnce(s)
    ensures ClosedOnce(OwnerStep(s, e)) && OwnerStep(s, e).pass == s.pass
  {
  }

  lemma {:induction false} RunKeepsInvariant(s: State, events: seq<Event>)
    requires Invariant(s)
    ensures Invariant(Run(s, events))
    decreases |events|
  {
    if events != [] {
      NextKeepsInvariant(s, events[0]);
      RunKeepsInvariant(Next(s, events[0]), events[1..]);
    }
  }

  // ----- what follows for every run from an empty cache

  /** No interleaving loses a resource, closes one twice, or attempts one twice in a pass. */
  lemma NothingIsLostOrClosedTwice(events: seq<Event>)
    ensures
      var s := Run(EMPTY, events);
      && (forall r :: r in s.registered && r !in s.closed ==> s.IsListed(r))
      && NoDuplicates(s.closed)
      && (forall r :: r in s.closed ==> r in s.registered && !s.IsListed(r))
      && (s.pass.Some? ==> NoDuplicates(s.pass.value.attempts))
  {
    RunKeepsInvariant(EMPTY, events);
  }

  /** `invalidate` returns this after its collection pass. */
  predicate Converged(s: State) {
    s.current.None? && s.building == {} && s.retired == {}
  }

  lemma ConvergedMeansClosed(s: State)
    requires Invariant(s)
    ensures Converged(s) ==> forall r :: r in s.registered <==> r in s.closed
  {
  }

  /** When `invalidate` returns True, everything ever registered has been closed, once. */
  lemma InvalidateMeansAllClosed(events: seq<Event>)
    requires Converged(Run(EMPTY, events))
    ensures forall r :: r in Run(EMPTY, events).registered <==> r in Run(EMPTY, events).closed
    ensures NoDuplicates(Run(EMPTY, events).closed)
  {
    RunKeepsInvariant(EMPTY, events);
  }

  /**
    From the start of a model's close to its return no building or current scope lists the
    model, and no retired scope that lists it has a controller left to close. At the start no
    background review is using models.
   */
  lemma ModelsAreClosedOnlyWhenUnused(events: seq<Event>, last: Event, m: Id)
    requires Run(EMPTY, events + [last]).InFlight(Model(m))
    ensures
      var s := Run(EMPTY, events + [last]);
      !s.IsActive(Model(m)) && !s.IsPending(Model(m))
    ensures !Run(EMPTY, events).InFlight(Model(m)) ==>
      !Run(EMPTY, events).reviewing && last == Collector(Visit(Model(m)))
  {
    hide Run, State.IsActive, State.IsPending;
    EmptyIsConsistent();
    RunKeepsInvariant(EMPTY, events + [last]);
    RunSnoc(EMPTY, events, last);
    if !Run(EMPTY, events).InFlight(Model(m)) {
      ClosingStarts(Run(EMPTY, events), last, m);
    }
  }

  lemma EmptyIsConsistent()
    ensures Invariant(EMPTY)
  {
  }

  lemma ClosingStarts(s: State, e: Event, m: Id)
    requires !s.InFlight(Model(m)) && Next(s, e).InFlight(Model(m))
    ensures !s.reviewing && e == Collector(Visit(Model(m)))
  {
    hide State.IsActive, State.IsPending;
  }

  lemma {:induction false} RunSnoc(s: State, events: seq<Event>, last: Event)
    ensures Run(s, events + [last]) == Next(Run(s, events), last)
    decreases |events|
  {
    if events == [] {
      assert [last][1..] == [];
    } else {
      assert (events + [last])[1..] == events[1..] + [last];
      RunSnoc(Next(s, events[0]), events[1..], last);
    }
  }

  /**
    After `seal` no graph is published any more, and every controller that any scope of the
    cache lists, then or later, has been sealed.
   */
  lemma {:induction false} SealedStaysSealed(events: seq<Event>, more: seq<Event>)
    requires Run(EMPTY, events).sealed
    ensures
      var s, s' := Run(EMPTY, events), Run(Run(EMPTY, events), more);
      && s'.sealed && (s'.current == s.current || s'.current == None)
      && (forall k, r :: s'.Owns(k) && s'.InScope(k, r) && r.Controller? ==> r in s'.controllersSealed)
  {
    RunKeepsInvariant(EMPTY, events);
    RunKeepsInvariant(Run(EMPTY, events), more);
    SealedBlocksPublish(Run(EMPTY, events), more);
    var s' := Run(Run(EMPTY, events), more);
    forall k, r | s'.Owns(k) && s'.InScope(k, r) && r.Controller? ensures r in s'.controllersSealed {
      assert r in s'.scopes[k].Controllers();
    }
  }

  lemma {:induction false} SealedBlocksPublish(s: State, events: seq<Event>)
    requires s.sealed
    ensures Run(s, events).sealed && (Run(s, events).current == s.current || Run(s, events).current == None)
    decreases |events|
  {
    if events != [] {
      SealedBlocksPublish(Next(s, events[0]), events[1..]);
    }
  }

  // ----- what a visit does, and that a smooth collection closes everything

  /**
    A visit starts the close of a resource if and only if it was not attempted in this phase,
    no building or current scope lists it, and, for a model, no retired scope that lists it has
    a controller and no review is running.
   */
  lemma VisitStartsExactly(s: State, r: Resource)
    requires PassEnabled(s, Visit(r))
    ensures Next(s, Collector(Visit(r))).InFlight(r) <==>
      && r !in s.pass.value.attempted
      && (forall k :: k in s.scopes && r in s.scopes[k].resources ==> k !in s.building && s.current != Some(k))
      && (r.Model? ==>
            && !s.reviewing
            && forall k, c: Resource :: k in s.retired && k in s.scopes && r in s.scopes[k].resources ==>
                 !(c.Controller? && c in s.scopes[k].resources))
  {
    if s.IsActive(r) {
      var k :| k in s.scopes && s.IsActiveScope(k) && s.InScope(k, r);
      assert k in s.scopes && r in s.scopes[k].resources;
    }
    if s.IsPending(r) {
      var k :| k in s.retired && s.InScope(k, r) && s.scopes[k].Controllers() != {};
      var c :| c in s.scopes[k].Controllers();
      assert c.Controller? && c in s.scopes[k].resources;
    }
    forall k, c: Resource | k in s.retired && k in s.scopes && r in s.scopes[k].resources && c.Controller?
                  && c in s.scopes[k].resources
      ensures s.IsPending(r)
    {
      assert c in s.scopes[k].Controllers() && s.InScope(k, r);
    }
    forall k | k in s.scopes && r in s.scopes[k].resources && (k in s.building || s.current == Some(k))
      ensures s.IsActive(r)
    {
      assert s.IsActiveScope(k) && s.InScope(k, r);
    }
    hide State.IsActive, State.IsPending;
  }

  /**
    A retired scope gives a resource up to a visit if and only if it was not attempted before
    and a building or current scope lists it; to a close, if and only if that succeeds.
   */
  lemma RetiredGivesUpExactly(s: State, k: Id, r: Resource)
    requires k in s.retired && s.InScope(k, r) && s.pass.Some?
    ensures PassEnabled(s, Visit(r)) ==>
      (!Next(s, Collector(Visit(r))).InScope(k, r) <==> r !in s.pass.value.attempted && s.IsActive(r))
    ensures forall ok :: s.InFlight(r) ==> (!Next(s, Collector(CloseReturns(ok))).InScope(k, r) <==> ok)
  {
    hide State.IsActive, State.IsPending;
  }

  /**
    Nothing builds, is current or reviews; the pass works on all retired scopes, has taken out
    of them whatever it attempted, and has left nothing of its kind in those it has visited.
   */
  ghost predicate IsSmooth(s: State) {
    && s.building == {} && s.current.None? && !s.reviewing && s.retired <= s.scopes.Keys
    && s.pass.Some? && s.pass.value.awaiting.None?
    && var p := s.pass.value;
       && p.snapshot == s.retired && p.todo <= p.snapshot && p.items !! p.attempted
       && (forall r :: r in p.items ==> p.OfPhase(r))
       && (forall k, r :: k in s.retired && r in s.scopes[k].resources ==>
             && r !in p.attempted
             && (p.phase.ClosingModels? ==> r.Model?)
             && (k !in p.todo && p.OfPhase(r) ==> r in p.items))
  }

  lemma SmoothIsNotPending(s: State, r: Resource)
    requires IsSmooth(s) && r in s.pass.value.items && r.Model?
    ensures !s.IsPending(r)
  {
    assert s.pass.value.OfPhase(r) && s.pass.value.phase.ClosingModels?;
    forall k | k in s.retired ensures s.scopes[k].Controllers() == {} {
      OnlyModels(s.scopes[k]);
    }
  }

  lemma OnlyModels(scope: Scope)
    requires forall r :: r in scope.resources ==> r.Model?
    ensures scope.Controllers() == {}
  {
  }

  /** The resource is closed: its close is started by the visit, and returns. */
  lemma SmoothVisitCloses(s: State, r: Resource)
    requires IsSmooth(s) && PassEnabled(s, Visit(r))
    ensures Next(s, Collector(Visit(r))).InFlight(r)
    ensures IsSmooth(Next(Next(s, Collector(Visit(r))), Collector(CloseReturns(true))))
  {
    assert !s.IsActive(r);
    if r.Model? {
      SmoothIsNotPending(s, r);
    }
    hide State.IsActive, State.IsPending;
  }

  /** Nothing builds, is current or reviews. */
  ghost predicate IsUnused(s: State) {
    s.building == {} && s.current.None? && !s.reviewing
  }

  lemma SmoothStarts(s: State)
    requires Invariant(s) && IsUnused(s) && s.pass.None?
    ensures IsSmooth(Next(s, Collector(StartPass)))
  {
    assert forall k :: k in s.retired ==> s.Owns(k);
  }

  lemma SmoothOpens(s: State, k: Id)
    requires IsSmooth(s) && PassEnabled(s, OpenScope(k))
    ensures IsSmooth(Next(s, Collector(OpenScope(k))))
  {
  }

  lemma SmoothPhaseEnds(s: State)
    requires IsSmooth(s) && PassEnabled(s, EndPhase)
    ensures
      var s' := Next(s, Collector(EndPhase));
      if s.pass.value.phase.ClosingControllers? then IsSmooth(s') && s'.pass.value.phase.ClosingModels?
      else Converged(s')
  {
    if s.pass.value.phase.ClosingModels? {
      forall k | k in s.retired ensures s.scopes[k].resources == {} {
        assert forall r :: r in s.scopes[k].resources ==> s.pass.value.OfPhase(r);
      }
    }
  }

  // ----- the cache object

  /** What happens while a close is awaited: the steps of other tasks, then how the await ends */
  datatype Turn = Turn(others: seq<OwnerEvent>, outcome: Outcome)
  datatype Outcome = Succeeded | Failed | Cancelled

  /** Every close succeeds, and no other task takes a step meanwhile. */
  predicate Succeeds(script: seq<Turn>) {
    forall i :: 0 <= i < |script| ==> script[i] == Turn([], Succeeded)
  }

  /** The owner events, as events of a run */
  function AsEvents(others: seq<OwnerEvent>): seq<Event> {
    if others == [] then [] else [Owner(others[0])] + AsEvents(others[1..])
  }

  lemma {:induction false} RunAppend(s: State, first: seq<Event>, second: seq<Event>)
    ensures Run(s, first + second) == Run(Run(s, first), second)
    decreases |first|
  {
    if first == [] {
      assert first + second == second;
    } else {
      assert (first + second)[1..] == first[1..] + second;
      RunAppend(Next(s, first[0]), first[1..], second);
    }
  }

  lemma RunOne(s: State, e: Event)
    ensures Run(s, [e]) == Next(s, e)
  {
    assert [e][1..] == [];
  }

  lemma RunNothing(s: State)
    ensures Run(s, []) == s
  {
  }

  lemma RunOneMore(s: State, trace: seq<Event>, e: Event)
    requires Invariant(Run(s, trace))
    ensures Run(s, trace + [e]) == Next(Run(s, trace), e) && Invariant(Run(s, trace + [e]))
  {
    RunSnoc(s, trace, e);
    NextKeepsInvariant(Run(s, trace), e);
  }

  lemma TodoIsKnown(s: State, k: Id)
    requires Invariant(s) && s.pass.Some? && k in s.pass.value.todo
    ensures k in s.scopes
  {
    assert s.Owns(k);
  }

  /** The run of the other tasks' steps, unfolded once */
  lemma RunOfOthers(s: State, others: seq<OwnerEvent>)
    ensures Run(s, AsEvents(others)) ==
            if others == [] then s else Run(Next(s, Owner(others[0])), AsEvents(others[1..]))
  {
    if others != [] {
      assert AsEvents(others)[1..] == AsEvents(others[1..]);
    }
  }

  lemma OwnersLeavePass(s: State, e: OwnerEvent)
    ensures OwnerStep(s, e).pass == s.pass
  {
  }

  /**
    `AgentGraphCache`, with the `GraphResources` objects it refers to held by identity. A
    collection pass keeps its local variables in `pass`, so that other tasks can run while
    it awaits a close.
   */
  class AgentGraphCache {
    var scopes: map<Id, Scope>
    var building: set<Id>
    var retired: set<Id>
    var current: Option<Id>
    var sealed: bool
    var pass: Option<Pass>
    var reviewing: bool
    var registered: set<Resource>
    var closed: seq<Resource>
    var controllersSealed: set<Resource>

    ghost function Snapshot(): State
      reads this
    {
      State(scopes, building, retired, current, sealed, pass, reviewing, registered, closed, controllersSealed)
    }

    constructor ()
      ensures Snapshot() == EMPTY
    {
      scopes, building, retired, current, sealed := map[], {}, {}, None, false;
      pass, reviewing, registered, closed, controllersSealed := None, false, {}, [], {};
    }

    /** Entering `build`; False stands for the RuntimeError of a sealed cache. */
    method EnterBuild(k: Id) returns (ok: bool)
      requires k !in scopes
      modifies this
      ensures ok == !old(sealed)
      ensures Snapshot() == Next(old(Snapshot()), Owner(Build(k)))
    {
      ok := !sealed;
      if ok {
        scopes := scopes[k := Scope({}, false)];
        building := building + {k};
      }
    }

    method OwnModel(k: Id, model: Id)
      requires k in scopes
      modifies this
      ensures Snapshot() == old(Snapshot()).WithModel(k, model)
      ensures OwnerEnabled(old(Snapshot()), OwnerEvent.OwnModel(k, model)) ==>
                Snapshot() == Next(old(Snapshot()), Owner(OwnerEvent.OwnModel(k, model)))
    {
      scopes := scopes[k := scopes[k].(resources := scopes[k].resources + {Model(model)})];
      registered := registered + {Model(model)};
    }

    method OwnMiddlewares(k: Id, middlewares: seq<Middleware>)
      requires k in scopes
      modifies this
      ensures Snapshot() == old(Snapshot()).WithControllers(k, Controllers(middlewares))
      ensures OwnerEnabled(old(Snapshot()), OwnerEvent.OwnMiddlewares(k, middlewares)) ==>
                Snapshot() == Next(old(Snapshot()), Owner(OwnerEvent.OwnMiddlewares(k, middlewares)))
    {
      var resources := scopes[k].resources;
      for i := 0 to |middlewares|
        invariant Snapshot() == old(Snapshot())
        invariant resources == scopes[k].resources + Controllers(middlewares[..i])
      {
        ControllersSnoc(middlewares, i);
        if middlewares[i].closeable {
          resources := resources + {Controller(middlewares[i].id)};
        }
      }
      assert middlewares[..|middlewares|] == middlewares;
      registered := registered + Controllers(middlewares);
      scopes := scopes[k := scopes[k].(resources := resources)];
      if scopes[k].sealed {
        controllersSealed := controllersSealed + scopes[k].Controllers();
      }
    }

    /** False stands for the RuntimeError of a sealed cache. */
    method Publish(k: Id) returns (ok: bool)
      modifies this
      ensures ok == !old(sealed)
      ensures Snapshot() == if ok then old(Snapshot()).WithCurrent(k) else old(Snapshot())
      ensures k in scopes && old(Snapshot()).IsActiveScope(k) ==>
        Snapshot() == Next(old(Snapshot()), Owner(OwnerEvent.Publish(k)))
    {
      ok := !sealed;
      if ok {
        if current.Some? && current.value != k {
          retired := retired + {current.value};
        }
        current := Some(k);
        building := building - {k};
      }
    }

    /** The exit of `build`, before its collection pass */
    method LeaveBuild(k: Id)
      modifies this
      ensures Snapshot() == Next(old(Snapshot()), Owner(OwnerEvent.LeaveBuild(k)))
    {
      if k in building {
        building := building - {k};
        retired := retired + {k};
      }
    }

    method Seal()
      requires ScopesDisjoint(Snapshot())
      modifies this
      ensures Snapshot() == Next(old(Snapshot()), Owner(OwnerEvent.Seal))
    {
      hide State.SealScopes, Scope.Controllers, PassStep;
      ghost var s := Snapshot();
      sealed := true;
      var todo := building + retired + if current.Some? then {current.value} else {};
      ghost var owned := todo;
      assert owned == set k | k in s.scopes && s.Owns(k);
      SealNothing(s);
      assert owned - todo == {};
      while todo != {}
        invariant todo <= owned && owned <= s.scopes.Keys
        invariant Snapshot() == s.SealScopes(owned - todo).(sealed := true)
      {
        var k :| k in todo;
        SealOneMore(s, owned - todo, k);
        assert owned - (todo - {k}) == owned - todo + {k};
        todo := todo - {k};
        controllersSealed := controllersSealed + scopes[k].Controllers();
        scopes := scopes[k := scopes[k].(sealed := true)];
      }
      assert owned - todo == owned;
      assert OwnerEnabled(s, OwnerEvent.Seal);
    }

    method Retire()
      modifies this
      ensures Snapshot() == Next(old(Snapshot()), Owner(OwnerEvent.Retire))
    {
      if current.Some? {
        retired := retired + {current.value};
        current := None;
      }
    }

    // The collection pass, between two awaits

    method BeginPass()
      requires pass.None?
      modifies this`pass
      ensures Snapshot() == Next(old(Snapshot()), Collector(StartPass))
      ensures pass == Some(Pass(ClosingControllers, retired, retired, {}, {}, None, []))
    {
      pass := Some(Pass(ClosingControllers, retired, retired, {}, {}, None, []));
    }

    method EnterScope(k: Id)
      requires PassEnabled(Snapshot(), OpenScope(k))
      modifies this`pass
      ensures Snapshot() == Next(old(Snapshot()), Collector(OpenScope(k)))
      ensures pass.Some?
      ensures pass.value == old(pass).value.(todo := old(pass).value.todo - {k}, items := pass.value.items)
    {
      var p := pass.value;
      pass := Some(p.(todo := p.todo - {k}, items := set r | r in scopes[k].resources && p.OfPhase(r)));
    }

    method VisitResource(r: Resource)
      requires PassEnabled(Snapshot(), Visit(r))
      modifies this`pass, this`scopes
      ensures Snapshot() == Next(old(Snapshot()), Collector(Visit(r)))
      ensures pass.Some? && pass.value == old(pass).value.(items := old(pass).value.items - {r},
        attempted := pass.value.attempted, awaiting := pass.value.awaiting, attempts := pass.value.attempts)
    {
      var p := pass.value.(items := pass.value.items - {r});
      if r !in p.attempted {
        p := p.(attempted := p.attempted + {r});
        var active := exists k :: k in scopes && (k in building || current == Some(k)) && r in scopes[k].resources;
        if active {
          PopFromRetired(r);
        } else {
          var pending :=
            exists k :: k in retired && k in scopes && r in scopes[k].resources && scopes[k].Controllers() != {};
          if r.Controller? || !(pending || reviewing) {
            p := p.(awaiting := Some(r), attempts := p.attempts + [r]);
          }
        }
      }
      pass := Some(p);
    }

    method PopFromRetired(r: Resource)
      modifies this`scopes
      ensures Snapshot() == old(Snapshot()).DropFromRetired(r)
    {
      scopes := map k | k in scopes ::
        if k in retired then scopes[k].(resources := scopes[k].resources - {r}) else scopes[k];
    }

    /** The awaited close has returned. */
    method FinishAwait(ok: bool)
      requires PassEnabled(Snapshot(), CloseReturns(ok))
      modifies this`pass, this`scopes, this`closed
      ensures Snapshot() == Next(old(Snapshot()), Collector(CloseReturns(ok)))
      ensures pass == Some(old(pass).value.(awaiting := None))
    {
      var r := pass.value.awaiting.value;
      pass := Some(pass.value.(awaiting := None));
      if ok {
        closed := closed + [r];
        PopFromRetired(r);
      }
    }

    /** The task that collects is cancelled: the lock is released and nothing else changes. */
    method AbandonPass()
      requires PassEnabled(Snapshot(), CancelPass)
      modifies this`pass
      ensures Snapshot() == Next(old(Snapshot()), Collector(CancelPass))
      ensures pass.None?
    {
      pass := None;
    }

    method FinishPhase()
      requires PassEnabled(Snapshot(), EndPhase)
      modifies this`pass, this`retired
      ensures Snapshot() == Next(old(Snapshot()), Collector(EndPhase))
      ensures old(pass).value.phase == ClosingModels ==> pass.None?
      ensures old(pass).value.phase == ClosingControllers ==>
        pass.Some? && pass.value.phase == ClosingModels && pass.value.items == {} && pass.value.awaiting.None?
    {
      var p := pass.value;
      if p.phase == ClosingControllers {
        pass := Some(p.(phase := ClosingModels, todo := p.snapshot, attempted := {}));
      } else {
        pass := None;
        retired := set k | k in retired && !(k in p.snapshot && k in scopes && scopes[k].resources == {});
      }
    }

    /** The steps that other tasks take while a close is awaited; one that is not enabled is skipped. */
    method RunOthers(others: seq<OwnerEvent>)
      requires Invariant(Snapshot())
      modifies this
      ensures Snapshot() == Run(old(Snapshot()), AsEvents(others)) && Invariant(Snapshot())
      ensures pass == old(pass)
      decreases |others|
    {
      hide Invariant, Run, OwnerStep, OwnerEnabled;
      if others != [] {
        NextKeepsInvariant(Snapshot(), Owner(others[0]));
        StepOther(others[0]);
        RunOthers(others[1..]);
      }
      RunOfOthers(old(Snapshot()), others);
    }

    method StepOther(e: OwnerEvent)
      requires Invariant(Snapshot())
      modifies this
      ensures Snapshot() == Next(old(Snapshot()), Owner(e)) && pass == old(pass)
    {
      OwnersLeavePass(Snapshot(), e);
      var s := State(
        scopes, building, retired, current, sealed, pass, reviewing, registered, closed, controllersSealed);
      if OwnerEnabled(s, e) {
        match e
        case Build(k) => var _ := EnterBuild(k);
        case OwnModel(k, m) => OwnModel(k, m);
        case OwnMiddlewares(k, ms) => OwnMiddlewares(k, ms);
        case Publish(k) => var _ := Publish(k);
        case LeaveBuild(k) => LeaveBuild(k);
        case Retire => Retire();
        case Seal => Seal();
        case Review(active) => reviewing := active;
      }
    }

    /**
      `collect`, with the lock held: what it does is a run of the steps above, in which other
      tasks take any steps while a close is awaited. `script` says what happens at each await.
     */
    method Collect(script: seq<Turn>) returns (completed: bool, ghost trace: seq<Event>)
      requires Invariant(Snapshot()) && pass.None?
      modifies this
      ensures Snapshot() == Run(old(Snapshot()), trace)
      ensures Invariant(Snapshot()) && pass.None?
      ensures old(IsUnused(Snapshot())) && Succeeds(script) ==> completed && Converged(Snapshot())
    {
      hide Invariant, Run, PassStep, PassEnabled, IsSmooth, IsUnused;
      ghost var s := Snapshot();
      ghost var smooth := IsUnused(s) && Succeeds(script);
      NextKeepsInvariant(s, Collector(StartPass));
      if smooth {
        SmoothStarts(s);
      }
      BeginPass();
      trace := [Collector(StartPass)];
      RunOne(s, Collector(StartPass));
      var rest;
      ghost var closing;
      completed, rest, closing := CloseRetired(script);
      RunAppend(s, trace, closing);
      trace := trace + closing;
      if completed {
        NextKeepsInvariant(Snapshot(), Collector(EndPhase));
        if smooth {
          SmoothPhaseEnds(Snapshot());
        }
        FinishPhase();
        RunSnoc(s, trace, Collector(EndPhase));
        trace := trace + [Collector(EndPhase)];
        completed, rest, closing := CloseRetired(rest);
        RunAppend(s, trace, closing);
        trace := trace + closing;
        if completed {
          NextKeepsInvariant(Snapshot(), Collector(EndPhase));
          if smooth {
            SmoothPhaseEnds(Snapshot());
          }
          FinishPhase();
          RunSnoc(s, trace, Collector(EndPhase));
          trace := trace + [Collector(EndPhase)];
        }
      }
    }

    /**
      `invalidate`: None stands for a cancellation during the collection. True means that
      everything the cache ever registered has been closed.
     */
    method Invalidate(script: seq<Turn>) returns (converged: Option<bool>)
      requires Invariant(Snapshot()) && pass.None?
      modifies this
      ensures Invariant(Snapshot()) && pass.None?
      ensures converged == Some(true) ==> forall r :: r in registered <==> r in closed
      ensures converged.Some? ==> (converged.value <==> Converged(Snapshot()))
      ensures old(building) == {} && !old(reviewing) && Succeeds(script) ==>
        converged == Some(true) && forall r :: r in registered ==> r in closed
    {
      NextKeepsInvariant(Snapshot(), Owner(OwnerEvent.Retire));
      Retire();
      var completed, _ := Collect(script);
      if !completed {
        return None;
      }
      ConvergedMeansClosed(Snapshot());
      return Some(current.None? && building == {} && retired == {});
    }

    /** `_close_middlewares` or `_close_models`, by the phase of the pass; False if it is cancelled */
    method CloseRetired(script: seq<Turn>) returns (completed: bool, rest: seq<Turn>, ghost trace: seq<Event>)
      requires Invariant(Snapshot())
      requires pass.Some? && pass.value.items == {} && pass.value.awaiting.None?
      modifies this
      ensures Snapshot() == Run(old(Snapshot()), trace) && Invariant(Snapshot())
      ensures completed ==>
        && PassEnabled(Snapshot(), EndPhase)
        && pass.Some? && pass.value.phase == old(pass).value.phase && pass.value.snapshot == old(pass).value.snapshot
      ensures !completed ==> pass.None?
      ensures old(IsSmooth(Snapshot())) && Succeeds(script) ==>
        completed && IsSmooth(Snapshot()) && Succeeds(rest)
    {
      hide Invariant, Run, PassStep, OwnerStep, IsSmooth;
      ghost var s := Snapshot();
      ghost var smooth := IsSmooth(s) && Succeeds(script);
      completed, rest, trace := true, script, [];
      RunNothing(s);
      while pass.value.todo != {}
        invariant Snapshot() == Run(s, trace) && Invariant(Snapshot())
        invariant pass.Some? && pass.value.items == {} && pass.value.awaiting.None?
        invariant pass.value.phase == old(pass).value.phase && pass.value.snapshot == old(pass).value.snapshot
        invariant smooth ==> IsSmooth(Snapshot()) && Succeeds(rest)
        decreases pass.value.todo
      {
        var k :| k in pass.value.todo;
        TodoIsKnown(Snapshot(), k);
        RunOneMore(s, trace, Collector(OpenScope(k)));
        trace := trace + [Collector(OpenScope(k))];
        if smooth {
          SmoothOpens(Snapshot(), k);
        }
        EnterScope(k);
        ghost var todo := pass.value.todo;
        while pass.value.items != {}
          invariant Snapshot() == Run(s, trace) && Invariant(Snapshot())
          invariant pass.Some? && pass.value.awaiting.None? && pass.value.todo == todo
          invariant pass.value.phase == old(pass).value.phase && pass.value.snapshot == old(pass).value.snapshot
          invariant smooth ==> IsSmooth(Snapshot()) && Succeeds(rest)
          decreases pass.value.items
        {
          var r :| r in pass.value.items;
          ghost var visit;
          completed, rest, visit := VisitAndAwait(r, rest);
          RunAppend(s, trace, visit);
          trace := trace + visit;
          if !completed {
            return;
          }
        }
      }
    }

    /** One pass of the inner loops: a visit, and if it starts a close what happens until that returns */
    method VisitAndAwait(r: Resource, script: seq<Turn>)
      returns (completed: bool, rest: seq<Turn>, ghost trace: seq<Event>)
      requires Invariant(Snapshot()) && PassEnabled(Snapshot(), Visit(r))
      modifies this
      ensures Snapshot() == Run(old(Snapshot()), trace) && Invariant(Snapshot())
      ensures if !completed then pass.None? else
        && pass.Some? && pass.value.awaiting.None? && pass.value.items == old(pass).value.items - {r}
        && pass.value.todo == old(pass).value.todo && pass.value.phase == old(pass).value.phase
        && pass.value.snapshot == old(pass).value.snapshot
      ensures old(IsSmooth(Snapshot())) && Succeeds(script) ==>
        completed && IsSmooth(Snapshot()) && Succeeds(rest)
    {
      hide Invariant, Run, PassStep, OwnerStep, IsSmooth;
      ghost var s := Snapshot();
      completed, rest, trace := true, script, [Collector(Visit(r))];
      RunOne(s, Collector(Visit(r)));
      NextKeepsInvariant(s, Collector(Visit(r)));
      if IsSmooth(s) {
        SmoothVisitCloses(s, r);
      }
      VisitResource(r);
      if pass.value.awaiting.Some? {
        var turn := if rest == [] then Turn([], Succeeded) else rest[0];
        rest := if rest == [] then [] else rest[1..];
        RunAppend(s, trace, AsEvents(turn.others));
        trace := trace + AsEvents(turn.others);
        RunOfOthers(Snapshot(), turn.others);
        RunOthers(turn.others);
        if turn.outcome == Cancelled {
          RunOneMore(s, trace, Collector(CancelPass));
          trace := trace + [Collector(CancelPass)];
          AbandonPass();
          return false, rest, trace;
        }
        RunOneMore(s, trace, Collector(CloseReturns(turn.outcome == Succeeded)));
        trace := trace + [Collector(CloseReturns(turn.outcome == Succeeded))];
        FinishAwait(turn.outcome == Succeeded);
      }
    }
  }

  lemma SealNothing(s: State)
    ensures s.SealScopes({}) == s
  {
    assert s.SealScopes({}).scopes == s.scopes;
  }

  lemma SealOneMore(s: State, done: set<Id>, k: Id)
    requires k in s.scopes && k !in done
    ensures k in s.SealScopes(done).scopes
    ensures s.SealScopes(done + {k}) == s.SealScopes(done).(
      scopes := s.SealScopes(done).scopes[k := s.SealScopes(done).scopes[k].(sealed := true)],
      controllersSealed := s.SealScopes(done).controllersSealed + s.SealScopes(done).scopes[k].Controllers())
  {
    assert s.SealScopes(done).scopes[k] == s.scopes[k];
    assert s.SealScopes(done + {k}).scopes == s.SealScopes(done).scopes[k := s.scopes[k].(sealed := true)];
    assert s.SealScopes(done + {k}).controllersSealed ==
           s.SealScopes(done).controllersSealed + s.scopes[k].Controllers();
  }

  lemma ControllersSnoc(middlewares: seq<Middleware>, i: nat)
    requires i < |middlewares|
    ensures Controllers(middlewares[..i + 1]) == Controllers(middlewares[..i]) +
            if middlewares[i].closeable then {Controller(middlewares[i].id)} else {}
  {
    var shorter, longer := middlewares[..i], middlewares[..i + 1];
    assert forall j :: 0 <= j < i ==> shorter[j] == longer[j];
    assert longer[i] == middlewares[i];
  }
}
