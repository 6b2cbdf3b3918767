/**
  The cache of the agent's runtime configuration: a signature of the files on disk decides
  whether the cached configuration can be reused, and is itself observed at most once a
  second (`load_runtime_config`, `current_signature`, `invalidate_cache`).

  Threads run several loads at once. The lock protects the cache fields, not the disk: a scan
  looks at one file after another without the lock, a load reads one file after another under
  it, and any file may change in between.
 */
module RuntimeCache {
  import opened Wrappers

  /** The version of a file, its absence included; versions only grow. */
  type Version = nat

  /** A version of every file. It stands for a signature, built from them, or a configuration, read from them. */
  type Versions = seq<Version>

  const SIGNATURE_CHECK_INTERVAL := 1000   // milliseconds

  /** The entry of a file in a signature: its modification time and size, or its absence */
  type Stat<!S> = (nat, Version) -> S

  predicate SameSignature<S(==)>(stat: Stat<S>, a: Versions, b: Versions) {
    |a| == |b| && forall f :: 0 <= f < |a| ==> stat(f, a[f]) == stat(f, b[f])
  }

  predicate AtLeast(a: Versions, b: Versions) {
    |a| == |b| && forall f :: 0 <= f < |a| ==> a[f] >= b[f]
  }

  datatype Cache = Cache(
    cachedSignature: Option<Versions>, observedSignature: Option<Versions>, checkedAt: int, config: Option<Versions>)
  {
    /** `current_signature`, first critical section: the throttled answer, if there is one */
    function Throttled(now: int): Option<Versions> {
      if observedSignature.Some? && now - checkedAt < SIGNATURE_CHECK_INTERVAL then observedSignature else None
    }

    /** `current_signature`, second critical section */
    function Remember(signature: Versions, now: int): Cache {
      this.(observedSignature := Some(signature), checkedAt := now)
    }

    /** The test of `load_runtime_config` */
    predicate CanReuse<S(==)>(stat: Stat<S>, signature: Versions) {
      cachedSignature.Some? && SameSignature(stat, cachedSignature.value, signature) && config.Some?
    }

    function Keep(signature: Versions, read: Versions): Cache {
      this.(cachedSignature := Some(signature), config := Some(read))
    }
  }

  const CLEARED := Cache(None, None, 0, None)

  /** How far a load has come; `began` is when it looked at the clock. */
  datatype Call =
    | Scanning(began: int, seen: map<nat, Version>)                             // it builds the signature
    | Signed(signature: Versions, began: int, reobserved: bool)             // it knows the signature to compare with
    | Loading(signature: Versions, began: int, reobserved: bool, read: map<nat, Version>)   // it reads, with the lock

  /** What a load returned, and which signature it had, observed by itself or not */
  datatype Result = Result(signature: Versions, began: int, reobserved: bool, config: Versions)

  /** `since` says when each version of each file appeared. */
  datatype State = State(
    disk: Versions, since: seq<seq<int>>, clock: int,
    cache: Cache, lock: Option<nat>, calls: map<nat, Call>, results: seq<Result>)

  function Initial(files: nat): State {
    State(seq(files, _ => 0), seq(files, _ => [0]), 0, CLEARED, None, map[], [])
  }

  datatype Event =
    | Change(file: nat)
    | Tick(ms: nat)
    | Begin(call: nat)
    | Scan(call: nat, file: nat)
    | Store(call: nat)
    | Fetch(call: nat)
    | Read(call: nat, file: nat)
    | Loaded(call: nat)
    | Invalidate

  predicate IsComplete(m: map<nat, Version>, files: nat) {
    forall f :: 0 <= f < files ==> f in m
  }

  function Collected(m: map<nat, Version>, files: nat): Versions
    requires IsComplete(m, files)
  {
    seq(files, f requires 0 <= f < files => m[f])
  }

  function Next<S(==)>(stat: Stat<S>, s: State, e: Event): State {
    var n := |s.disk|;
    match e
    case Change(f) =>
      if f < n && f < |s.since|
      then s.(disk := s.disk[f := s.disk[f] + 1], since := s.since[f := s.since[f] + [s.clock]]) else s
    case Tick(ms) => s.(clock := s.clock + ms)
    case Begin(c) =>
      if c in s.calls || s.lock.Some? then s
      else
        var throttled := s.cache.Throttled(s.clock);
        s.(calls := s.calls[c :=
          if throttled.Some? then Signed(throttled.value, s.clock, false) else Scanning(s.clock, map[])])
    case Scan(c, f) =>
      if c in s.calls && s.calls[c].Scanning? && f < n && f !in s.calls[c].seen
      then s.(calls := s.calls[c := s.calls[c].(seen := s.calls[c].seen[f := s.disk[f]])]) else s
    case Store(c) =>
      if c in s.calls && s.calls[c].Scanning? && IsComplete(s.calls[c].seen, n) && s.lock.None? then
        var signature := Collected(s.calls[c].seen, n);
        s.(cache := s.cache.Remember(signature, s.calls[c].began),
           calls := s.calls[c := Signed(signature, s.calls[c].began, true)])
      else s
    case Fetch(c) =>
      if c in s.calls && s.calls[c].Signed? && s.lock.None? then
        var call := s.calls[c];
        if s.cache.CanReuse(stat, call.signature) then
          s.(calls := s.calls - {c},
             results := s.results + [Result(call.signature, call.began, call.reobserved, s.cache.config.value)])
        else s.(lock := Some(c), calls := s.calls[c := Loading(call.signature, call.began, call.reobserved, map[])])
      else s
    case Read(c, f) =>
      if c in s.calls && s.calls[c].Loading? && f < n && f !in s.calls[c].read
      then s.(calls := s.calls[c := s.calls[c].(read := s.calls[c].read[f := s.disk[f]])]) else s
    case Loaded(c) =>
      if c in s.calls && s.calls[c].Loading? && IsComplete(s.calls[c].read, n) && s.lock == Some(c) then
        var call, config := s.calls[c], Collected(s.calls[c].read, n);
        s.(cache := s.cache.Keep(call.signature, config), lock := None, calls := s.calls - {c},
           results := s.results + [Result(call.signature, call.began, call.reobserved, config)])
      else s
    case Invalidate => if s.lock.None? then s.(cache := CLEARED) else s
  }

  function Run<S(==)>(stat: Stat<S>, s: State, events: seq<Event>): State
    decreases |events|
  {
    if events == [] then s else Run(stat, Next(stat, s, events[0]), events[1..])
  }

  /** No version of a file up to the last has the entry of an earlier one. */
  predicate NeverRepeats<S(==)>(stat: Stat<S>, last: Versions) {
    forall f, a: Version, b: Version :: 0 <= f < |last| && a < b <= last[f] ==> stat(f, a) != stat(f, b)
  }

  // ----- the invariant

  /** The version of the file exists, and if it has been superseded, it was at that time or later. */
  predicate WasCurrent(s: State, f: nat, v: Version, time: int)
    requires f < |s.disk| == |s.since|
  {
    v <= s.disk[f] && (v < s.disk[f] ==> v + 1 < |s.since[f]| && s.since[f][v + 1] >= time)
  }

  ghost predicate AllWereCurrent(s: State, vs: Versions, time: int)
    requires |s.disk| == |s.since|
  {
    |vs| == |s.disk| && forall f :: 0 <= f < |vs| ==> WasCurrent(s, f, vs[f], time)
  }

  /** A signature observed by the load itself is as of its beginning, another one less than an interval older. */
  function AsOf(began: int, reobserved: bool): int {
    if reobserved then began else began - SIGNATURE_CHECK_INTERVAL + 1
  }

  /** The times at which versions appeared are known, in order, and past. */
  ghost predicate ClockConsistent(s: State) {
    && |s.since| == |s.disk|
    && (forall f :: 0 <= f < |s.disk| ==> |s.since[f]| == s.disk[f] + 1)
    && (forall f, i, j :: 0 <= f < |s.since| && 0 <= i <= j < |s.since[f]| ==>
          s.since[f][i] <= s.since[f][j] <= s.clock)
  }

  /** The cached configuration was read no earlier than its signature was observed. */
  ghost predicate CacheConsistent(s: State)
    requires |s.disk| == |s.since|
  {
    && (s.cache.config.Some? ==> AtLeast(s.disk, s.cache.config.value))
    && (s.cache.cachedSignature.Some? ==>
          s.cache.config.Some? && AtLeast(s.cache.config.value, s.cache.cachedSignature.value))
    && (s.cache.observedSignature.Some? ==>
          s.cache.checkedAt <= s.clock && AllWereCurrent(s, s.cache.observedSignature.value, s.cache.checkedAt))
  }

  ghost predicate CallConsistent(s: State, call: Call)
    requires |s.disk| == |s.since|
  {
    && call.began <= s.clock
    && match call
       case Scanning(began, seen) => forall f :: f in seen && f < |s.disk| ==> WasCurrent(s, f, seen[f], began)
       case Signed(signature, began, reobserved) => AllWereCurrent(s, signature, AsOf(began, reobserved))
       case Loading(signature, began, reobserved, read) =>
         && AllWereCurrent(s, signature, AsOf(began, reobserved))
         && forall f :: f in read && f < |s.disk| ==> signature[f] <= read[f] <= s.disk[f]
  }

  /** A load returns, for every file, what it was when the signature looked at it, or something later. */
  predicate IsFresh(r: Result) {
    AtLeast(r.config, r.signature)
  }

  ghost predicate ResultConsistent(s: State, r: Result)
    requires |s.disk| == |s.since|
  {
    IsFresh(r) && AllWereCurrent(s, r.config, AsOf(r.began, r.reobserved)) && r.began <= s.clock
  }

  ghost predicate Invariant(s: State) {
    && ClockConsistent(s) && CacheConsistent(s)
    && (forall c :: c in s.calls ==> CallConsistent(s, s.calls[c]))
    && (forall i :: 0 <= i < |s.results| ==> ResultConsistent(s, s.results[i]))
  }

  // ----- what a change of the disk and the passing of time keep

  /** Everything but the disk and the clock is the same, and no version is forgotten. */
  ghost predicate Later(s: State, s': State) {
    && ClockConsistent(s) && ClockConsistent(s') && s.clock <= s'.clock && |s'.disk| == |s.disk|
    && (forall f :: 0 <= f < |s.disk| ==> s.disk[f] <= s'.disk[f] && s.since[f] <= s'.since[f])
    && (forall f, i :: 0 <= f < |s.disk| && |s.since[f]| <= i < |s'.since[f]| ==> s'.since[f][i] >= s.clock)
  }

  lemma StillWasCurrent(s: State, s': State, f: nat, v: Version, time: int)
    requires Later(s, s') && f < |s.disk| && WasCurrent(s, f, v, time) && time <= s.clock
    ensures WasCurrent(s', f, v, time)
  {
    if v < s.disk[f] {
      assert s'.since[f][v + 1] == s.since[f][v + 1];
    } else if v < s'.disk[f] {
      assert v + 1 == |s.since[f]|;
    }
  }

  lemma StillWereCurrent(s: State, s': State, vs: Versions, time: int)
    requires Later(s, s') && AllWereCurrent(s, vs, time) && time <= s.clock
    ensures AllWereCurrent(s', vs, time)
  {
    LaterHasFiles(s, s');
    hide Later, WasCurrent;
    forall f | 0 <= f < |vs|
      ensures WasCurrent(s', f, vs[f], time)
    {
      StillWasCurrent(s, s', f, vs[f], time);
    }
  }

  lemma LaterHasFiles(s: State, s': State)
    requires Later(s, s')
    ensures |s'.disk| == |s.disk| == |s.since| == |s'.since| && s.clock <= s'.clock && AtLeast(s'.disk, s.disk)
  {
  }

  lemma CallsStay(s: State, s': State, call: Call)
    requires Later(s, s') && CallConsistent(s, call)
    ensures CallConsistent(s', call)
  {
    LaterHasFiles(s, s');
    hide Later, AllWereCurrent, WasCurrent;
    match call
    case Scanning(began, seen) =>
      forall f | f in seen && f < |s.disk| ensures WasCurrent(s', f, seen[f], began) {
        StillWasCurrent(s, s', f, seen[f], began);
      }
    case Signed(signature, began, reobserved) => StillWereCurrent(s, s', signature, AsOf(began, reobserved));
    case Loading(signature, began, reobserved, read) =>
      StillWereCurrent(s, s', signature, AsOf(began, reobserved));
      SameFiles(s, signature, AsOf(began, reobserved));
  }

  lemma SameFiles(s: State, vs: Versions, time: int)
    requires |s.disk| == |s.since| && AllWereCurrent(s, vs, time)
    ensures AtLeast(s.disk, vs)
  {
  }

  lemma LaterKeepsInvariant(s: State, s': State)
    requires Invariant(s) && Later(s, s') && s' == s.(disk := s'.disk, since := s'.since, clock := s'.clock)
    ensures Invariant(s')
  {
    LaterHasFiles(s, s');
    assert ClockConsistent(s');
    hide Later, AllWereCurrent, ClockConsistent, CallConsistent;
    if s.cache.observedSignature.Some? {
      StillWereCurrent(s, s', s.cache.observedSignature.value, s.cache.checkedAt);
    }
    forall c | c in s'.calls ensures CallConsistent(s', s'.calls[c]) {
      CallsStay(s, s', s.calls[c]);
    }
    forall i | 0 <= i < |s'.results| ensures ResultConsistent(s', s'.results[i]) {
      var r := s.results[i];
      StillWereCurrent(s, s', r.config, AsOf(r.began, r.reobserved));
    }
  }

  lemma ChangeIsLater<S>(stat: Stat<S>, s: State, f: nat)
    requires ClockConsistent(s)
    ensures Later(s, Next(stat, s, Change(f)))
  {
  }

  // ----- the steps of the loads

  /** A newer version of the file was current no earlier. */
  lemma NewerWasCurrent(s: State, vs: Versions, ws: Versions, time: int)
    requires ClockConsistent(s) && AllWereCurrent(s, vs, time) && AtLeast(ws, vs) && AtLeast(s.disk, ws)
    ensures AllWereCurrent(s, ws, time)
  {
    forall f | 0 <= f < |ws| ensures WasCurrent(s, f, ws[f], time) {
      assert WasCurrent(s, f, vs[f], time);
      if ws[f] < s.disk[f] {
        assert s.since[f][vs[f] + 1] <= s.since[f][ws[f] + 1];
      }
    }
  }

  /** Equal signatures that never repeat were built from the same versions. */
  lemma SameVersions<S>(stat: Stat<S>, disk: Versions, a: Versions, b: Versions)
    requires NeverRepeats(stat, disk) && AtLeast(disk, a) && AtLeast(disk, b) && SameSignature(stat, a, b)
    ensures a == b
  {
    forall f | 0 <= f < |a| ensures a[f] == b[f] {
      assert stat(f, a[f]) == stat(f, b[f]);
      SameVersion(stat, disk, f, a[f], b[f]);
    }
  }

  lemma SameVersion<S>(stat: Stat<S>, disk: Versions, f: nat, a: Version, b: Version)
    requires NeverRepeats(stat, disk) && f < |disk| && a <= disk[f] && b <= disk[f]
    ensures stat(f, a) == stat(f, b) ==> a == b
  {
  }

  lemma CallKeepsInvariant<S>(s: State, s': State, c: nat, call: Call)
    requires Invariant(s) && s' == s.(calls := s.calls[c := call], lock := s'.lock) && CallConsistent(s, call)
    ensures Invariant(s')
  {
    SameDisk(s, s');
    hide ClockConsistent, CacheConsistent, CallConsistent, ResultConsistent;
  }

  /** All these only look at the disk and the clock. */
  lemma SameDisk(s: State, s': State)
    requires s'.disk == s.disk && s'.since == s.since && s'.clock == s.clock && |s.disk| == |s.since|
    ensures ClockConsistent(s) <==> ClockConsistent(s')
    ensures s'.cache == s.cache ==> (CacheConsistent(s) <==> CacheConsistent(s'))
    ensures forall call :: CallConsistent(s, call) <==> CallConsistent(s', call)
    ensures forall r :: ResultConsistent(s, r) <==> ResultConsistent(s', r)
  {
    assert forall vs, time :: AllWereCurrent(s, vs, time) <==> AllWereCurrent(s', vs, time);
  }

  lemma BeginKeeps<S>(stat: Stat<S>, s: State, c: nat)
    requires Invariant(s)
    ensures Invariant(Next(stat, s, Begin(c)))
  {
    if c !in s.calls && s.lock.None? {
      var throttled := s.cache.Throttled(s.clock);
      var call := if throttled.Some? then Signed(throttled.value, s.clock, false) else Scanning(s.clock, map[]);
      hide ClockConsistent, ResultConsistent, WasCurrent;
      if throttled.Some? {
        EarlierIsWeaker(s, throttled.value, s.cache.checkedAt, AsOf(s.clock, false));
      }
      assert CallConsistent(s, call);
      CallKeepsInvariant<S>(s, Next(stat, s, Begin(c)), c, call);
    }
  }

  lemma EarlierIsWeaker(s: State, vs: Versions, time: int, earlier: int)
    requires |s.disk| == |s.since| && AllWereCurrent(s, vs, time) && earlier <= time
    ensures AllWereCurrent(s, vs, earlier)
  {
    forall f | 0 <= f < |vs| ensures WasCurrent(s, f, vs[f], earlier) {
      assert WasCurrent(s, f, vs[f], time);
    }
  }

  lemma ScanKeeps<S>(stat: Stat<S>, s: State, c: nat, f: nat)
    requires Invariant(s)
    ensures Invariant(Next(stat, s, Scan(c, f)))
  {
    if c in s.calls && s.calls[c].Scanning? && f < |s.disk| && f !in s.calls[c].seen {
      var call := s.calls[c].(seen := s.calls[c].seen[f := s.disk[f]]);
      assert CallConsistent(s, s.calls[c]);
      assert WasCurrent(s, f, s.disk[f], call.began);
      hide ClockConsistent, CacheConsistent, ResultConsistent, WasCurrent;
      CallKeepsInvariant<S>(s, Next(stat, s, Scan(c, f)), c, call);
    }
  }

  lemma StoreKeeps<S>(stat: Stat<S>, s: State, c: nat)
    requires Invariant(s)
    ensures Invariant(Next(stat, s, Store(c)))
  {
    var n := |s.disk|;
    if c in s.calls && s.calls[c].Scanning? && IsComplete(s.calls[c].seen, n) && s.lock.None? {
      var signature, began := Collected(s.calls[c].seen, n), s.calls[c].began;
      assert CallConsistent(s, s.calls[c]);
      assert AllWereCurrent(s, signature, began);
      hide ClockConsistent, ResultConsistent, AllWereCurrent;
      var s1 := s.(cache := s.cache.Remember(signature, began));
      assert Invariant(s1) by {
        SameDisk(s, s1);
        SameCurrent(s, s1, signature, began);
      }
      var call := Signed(signature, began, true);
      SameDisk(s, s1);
      CallKeepsInvariant<S>(s1, Next(stat, s, Store(c)), c, call);
    }
  }

  lemma SameCurrent(s: State, s': State, vs: Versions, time: int)
    requires s'.disk == s.disk && s'.since == s.since && |s.disk| == |s.since|
    ensures AllWereCurrent(s, vs, time) <==> AllWereCurrent(s', vs, time)
  {
  }

  lemma FetchKeeps<S>(stat: Stat<S>, s: State, c: nat)
    requires Invariant(s) && NeverRepeats(stat, s.disk)
    ensures Invariant(Next(stat, s, Fetch(c)))
  {
    if c in s.calls && s.calls[c].Signed? && s.lock.None? {
      var s', call := Next(stat, s, Fetch(c)), s.calls[c];
      assert CallConsistent(s, call);
      hide ClockConsistent, AllWereCurrent, NeverRepeats;
      SameFiles(s, call.signature, AsOf(call.began, call.reobserved));
      if s.cache.CanReuse(stat, call.signature) {
        var config := s.cache.config.value;
        SameVersions(stat, s.disk, s.cache.cachedSignature.value, call.signature);
        NewerWasCurrent(s, call.signature, config, AsOf(call.began, call.reobserved));
        assert ResultConsistent(s, Result(call.signature, call.began, call.reobserved, config));
        hide ResultConsistent, CallConsistent, CacheConsistent;
        SameDisk(s, s');
      } else {
        CallKeepsInvariant<S>(s, s', c, Loading(call.signature, call.began, call.reobserved, map[]));
      }
    }
  }

  lemma ReadKeeps<S>(stat: Stat<S>, s: State, c: nat, f: nat)
    requires Invariant(s)
    ensures Invariant(Next(stat, s, Read(c, f)))
  {
    if c in s.calls && s.calls[c].Loading? && f < |s.disk| && f !in s.calls[c].read {
      var call := s.calls[c];
      assert CallConsistent(s, call);
      hide ClockConsistent, CacheConsistent, ResultConsistent, AllWereCurrent;
      SameFiles(s, call.signature, AsOf(call.began, call.reobserved));
      CallKeepsInvariant<S>(s, Next(stat, s, Read(c, f)), c, call.(read := call.read[f := s.disk[f]]));
    }
  }

  lemma LoadedKeeps<S>(stat: Stat<S>, s: State, c: nat)
    requires Invariant(s)
    ensures Invariant(Next(stat, s, Loaded(c)))
  {
    var n := |s.disk|;
    if c in s.calls && s.calls[c].Loading? && IsComplete(s.calls[c].read, n) && s.lock == Some(c) {
      var s', call, config := Next(stat, s, Loaded(c)), s.calls[c], Collected(s.calls[c].read, n);
      assert CallConsistent(s, call);
      hide ClockConsistent, AllWereCurrent;
      SameFiles(s, call.signature, AsOf(call.began, call.reobserved));
      assert AtLeast(config, call.signature) && AtLeast(s.disk, config);
      NewerWasCurrent(s, call.signature, config, AsOf(call.began, call.reobserved));
      assert ResultConsistent(s, Result(call.signature, call.began, call.reobserved, config));
      hide ResultConsistent, CallConsistent;
      SameDisk(s, s');
      if s.cache.observedSignature.Some? {
        SameCurrent(s, s', s.cache.observedSignature.value, s.cache.checkedAt);
      }
    }
  }

  lemma NextKeepsInvariant<S>(stat: Stat<S>, s: State, e: Event)
    requires Invariant(s) && NeverRepeats(stat, s.disk)
    ensures Invariant(Next(stat, s, e))
  {
    match e
    case Change(f) =>
      ChangeIsLater(stat, s, f);
      LaterKeepsInvariant(s, Next(stat, s, e));
    case Tick(ms) => LaterKeepsInvariant(s, Next(stat, s, e));
    case Begin(c) => BeginKeeps(stat, s, c);
    case Scan(c, f) => ScanKeeps(stat, s, c, f);
    case Store(c) => StoreKeeps(stat, s, c);
    case Fetch(c) => FetchKeeps(stat, s, c);
    case Read(c, f) => ReadKeeps(stat, s, c, f);
    case Loaded(c) => LoadedKeeps(stat, s, c);
    case Invalidate =>
      hide ClockConsistent, CallConsistent, ResultConsistent;
      SameDisk(s, Next(stat, s, e));
  }

  lemma {:induction false} DiskOnlyGrows<S>(stat: Stat<S>, s: State, events: seq<Event>)
    ensures AtLeast(Run(stat, s, events).disk, s.disk)
    decreases |events|
  {
    hide AtLeast;
    if events == [] {
      StepGrows(stat, s, Tick(0));
    } else {
      StepGrows(stat, s, events[0]);
      DiskOnlyGrows(stat, Next(stat, s, events[0]), events[1..]);
      AtLeastTwice(Run(stat, s, events).disk, Next(stat, s, events[0]).disk, s.disk);
    }
  }

  lemma StepGrows<S>(stat: Stat<S>, s: State, e: Event)
    ensures AtLeast(Next(stat, s, e).disk, s.disk) && AtLeast(s.disk, s.disk)
  {
  }

  lemma AtLeastTwice(a: Versions, b: Versions, c: Versions)
    requires AtLeast(a, b) && AtLeast(b, c)
    ensures AtLeast(a, c)
  {
  }

  lemma {:induction false} RunKeepsInvariant<S>(stat: Stat<S>, s: State, events: seq<Event>)
    requires Invariant(s) && NeverRepeats(stat, Run(stat, s, events).disk)
    ensures Invariant(Run(stat, s, events))
    decreases |events|
  {
    if events != [] {
      DiskOnlyGrows(stat, s, events);
      hide Invariant, Next;
      NextKeepsInvariant(stat, s, events[0]);
      RunKeepsInvariant(stat, Next(stat, s, events[0]), events[1..]);
    }
  }

  lemma InitialIsConsistent(files: nat)
    ensures Invariant(Initial(files))
  {
  }

  // ----- what holds of every load

  predicate AllFresh(s: State) {
    forall i :: 0 <= i < |s.results| ==> IsFresh(s.results[i])
  }

  /**
    In every run in which no file returns to an earlier entry, every load returns for every
    file a version that is no older than the one its signature was built from, and no newer
    than the disk.
   */
  lemma LoadsAreFresh<S>(stat: Stat<S>, files: nat, events: seq<Event>)
    requires NeverRepeats(stat, Run(stat, Initial(files), events).disk)
    ensures
      var s := Run(stat, Initial(files), events);
      AllFresh(s) && forall i :: 0 <= i < |s.results| ==> AtLeast(s.disk, s.results[i].config)
  {
    InitialIsConsistent(files);
    RunKeepsInvariant(stat, Initial(files), events);
    var s := Run(stat, Initial(files), events);
    hide Run, AllWereCurrent;
    forall i | 0 <= i < |s.results| ensures IsFresh(s.results[i]) && AtLeast(s.disk, s.results[i].config) {
      assert ResultConsistent(s, s.results[i]);
      SameFiles(s, s.results[i].config, AsOf(s.results[i].began, s.results[i].reobserved));
    }
  }

  /**
    No load returns a version that had been superseded a second before the load began, however
    long signatures and loads take; one that observed the signature itself returns none that
    had been superseded before it began.
   */
  lemma LoadsAreRecent<S>(stat: Stat<S>, files: nat, events: seq<Event>, i: nat, f: nat)
    requires NeverRepeats(stat, Run(stat, Initial(files), events).disk)
    requires i < |Run(stat, Initial(files), events).results| && f < files
    ensures
      var s := Run(stat, Initial(files), events);
      var r := s.results[i];
      && f < |r.config| && f < |s.disk| && f < |s.since| && r.config[f] <= s.disk[f] < |s.since[f]|
      && (r.config[f] < s.disk[f] ==>
            s.since[f][r.config[f] + 1] > (if r.reobserved then r.began - 1 else r.began - SIGNATURE_CHECK_INTERVAL))
  {
    InitialIsConsistent(files);
    DiskOnlyGrows(stat, Initial(files), events);
    RunKeepsInvariant(stat, Initial(files), events);
    var s := Run(stat, Initial(files), events);
    hide Run;
    assert ResultConsistent(s, s.results[i]);
    assert WasCurrent(s, f, s.results[i].config[f], AsOf(s.results[i].began, s.results[i].reobserved));
  }

  // ----- an entry that repeats

  function Changes(f: nat, n: nat): seq<Event> {
    if n == 0 then [] else [Change(f)] + Changes(f, n - 1)
  }

  function Scans(c: nat, k: nat): seq<Event> {
    if k == 0 then [] else Scans(c, k - 1) + [Scan(c, k - 1)]
  }

  function Reads(c: nat, k: nat): seq<Event> {
    if k == 0 then [] else Reads(c, k - 1) + [Read(c, k - 1)]
  }

  lemma {:induction false} RunAppend<S>(stat: Stat<S>, s: State, first: seq<Event>, second: seq<Event>)
    ensures Run(stat, s, first + second) == Run(stat, Run(stat, s, first), second)
    decreases |first|
  {
    hide Next;
    if first == [] {
      assert first + second == second;
    } else {
      assert (first + second)[1..] == first[1..] + second;
      RunAppend(stat, Next(stat, s, first[0]), first[1..], second);
    }
  }

  lemma RunOne<S>(stat: Stat<S>, s: State, e: Event)
    ensures Run(stat, s, [e]) == Next(stat, s, e)
  {
    assert [e][1..] == [];
  }

  lemma {:induction false} RunChanges<S>(stat: Stat<S>, s: State, f: nat, n: nat)
    requires f < |s.disk| == |s.since|
    ensures
      var r := Run(stat, s, Changes(f, n));
      r.disk == s.disk[f := s.disk[f] + n] && |r.since| == |s.since| && r == s.(disk := r.disk, since := r.since)
    decreases n
  {
    if n == 0 {
      assert s.disk[f := s.disk[f]] == s.disk;
    } else {
      assert Changes(f, n)[1..] == Changes(f, n - 1);
      RunChanges(stat, Next(stat, s, Change(f)), f, n - 1);
    }
  }

  function Observed(disk: Versions, k: nat): map<nat, Version>
    requires k <= |disk|
  {
    map f | 0 <= f < k :: disk[f]
  }

  lemma OneScan<S>(stat: Stat<S>, s: State, c: nat, began: int, k: nat)
    requires k < |s.disk|
    ensures
      Next(stat, s.(calls := s.calls[c := Scanning(began, Observed(s.disk, k))]), Scan(c, k)) ==
      s.(calls := s.calls[c := Scanning(began, Observed(s.disk, k + 1))])
  {
    assert Observed(s.disk, k)[k := s.disk[k]] == Observed(s.disk, k + 1);
    var calls := s.calls[c := Scanning(began, Observed(s.disk, k))];
    var scanning := Scanning(began, Observed(s.disk, k + 1));
    assert calls[c := scanning] == s.calls[c := scanning];
  }

  lemma {:induction false} RunScans<S>(stat: Stat<S>, s: State, c: nat, began: int, k: nat)
    requires c in s.calls && s.calls[c] == Scanning(began, map[]) && k <= |s.disk|
    ensures Run(stat, s, Scans(c, k)) == s.(calls := s.calls[c := Scanning(began, Observed(s.disk, k))])
    decreases k
  {
    if k == 0 {
      assert s.calls[c := Scanning(began, Observed(s.disk, 0))] == s.calls;
    } else {
      hide Run, Next, Observed;
      RunScans(stat, s, c, began, k - 1);
      RunAppend(stat, s, Scans(c, k - 1), [Scan(c, k - 1)]);
      RunOne(stat, Run(stat, s, Scans(c, k - 1)), Scan(c, k - 1));
      OneScan(stat, s, c, began, k - 1);
      assert Run(stat, s, Scans(c, k)) == s.(calls := s.calls[c := Scanning(began, Observed(s.disk, k))]);
    }
  }

  lemma OneRead<S>(stat: Stat<S>, s: State, c: nat, call: Call, k: nat)
    requires call.Loading? && k < |s.disk|
    ensures
      Next(stat, s.(calls := s.calls[c := call.(read := Observed(s.disk, k))]), Read(c, k)) ==
      s.(calls := s.calls[c := call.(read := Observed(s.disk, k + 1))])
  {
    assert Observed(s.disk, k)[k := s.disk[k]] == Observed(s.disk, k + 1);
    var calls := s.calls[c := call.(read := Observed(s.disk, k))];
    assert calls[c := call.(read := Observed(s.disk, k + 1))] == s.calls[c := call.(read := Observed(s.disk, k + 1))];
  }

  lemma {:induction false} RunReads<S>(stat: Stat<S>, s: State, c: nat, call: Call, k: nat)
    requires call.Loading? && call.read == map[] && c in s.calls && s.calls[c] == call && k <= |s.disk|
    ensures Run(stat, s, Reads(c, k)) == s.(calls := s.calls[c := call.(read := Observed(s.disk, k))])
    decreases k
  {
    if k == 0 {
      assert call.(read := Observed(s.disk, 0)) == call;
      assert s.calls[c := call] == s.calls;
    } else {
      hide Run, Next, Observed;
      RunReads(stat, s, c, call, k - 1);
      RunAppend(stat, s, Reads(c, k - 1), [Read(c, k - 1)]);
      RunOne(stat, Run(stat, s, Reads(c, k - 1)), Read(c, k - 1));
      OneRead(stat, s, c, call, k - 1);
      assert Run(stat, s, Reads(c, k)) == s.(calls := s.calls[c := call.(read := Observed(s.disk, k))]);
    }
  }

  /** A load up to the comparison of signatures, with nothing else going on */
  function Sign(c: nat, files: nat): seq<Event> {
    [Begin(c)] + (Scans(c, files) + [Store(c)])
  }

  lemma RunSign<S>(stat: Stat<S>, s: State, c: nat)
    requires c !in s.calls && s.lock.None? && s.cache.Throttled(s.clock).None?
    ensures Run(stat, s, Sign(c, |s.disk|)) ==
            s.(cache := s.cache.Remember(s.disk, s.clock), calls := s.calls[c := Signed(s.disk, s.clock, true)])
  {
    var n := |s.disk|;
    var s1 := Next(stat, s, Begin(c));
    RunOne(stat, s, Begin(c));
    RunAppend(stat, s, [Begin(c)], Scans(c, n) + [Store(c)]);
    RunScans(stat, s1, c, s.clock, n);
    var s2 := Run(stat, s1, Scans(c, n));
    RunAppend(stat, s1, Scans(c, n), [Store(c)]);
    RunOne(stat, s2, Store(c));
    assert Collected(Observed(s.disk, n), n) == s.disk;
    hide Run;
    assert Next(stat, s2, Store(c)).calls == s.calls[c := Signed(s.disk, s.clock, true)];
  }

  /** The rest of a load that has to read */
  function ReadAll(c: nat, files: nat): seq<Event> {
    [Fetch(c)] + (Reads(c, files) + [Loaded(c)])
  }

  lemma RunReadAll<S>(stat: Stat<S>, s: State, c: nat, signature: Versions, began: int)
    requires c in s.calls && s.calls[c] == Signed(signature, began, true) && s.lock.None?
    requires !s.cache.CanReuse(stat, signature)
    ensures Run(stat, s, ReadAll(c, |s.disk|)) ==
            s.(cache := s.cache.Keep(signature, s.disk), calls := s.calls - {c},
               results := s.results + [Result(signature, began, true, s.disk)])
  {
    var n := |s.disk|;
    var call := Loading(signature, began, true, map[]);
    var s1 := Next(stat, s, Fetch(c));
    RunOne(stat, s, Fetch(c));
    RunAppend(stat, s, [Fetch(c)], Reads(c, n) + [Loaded(c)]);
    RunReads(stat, s1, c, call, n);
    var s2 := Run(stat, s1, Reads(c, n));
    RunAppend(stat, s1, Reads(c, n), [Loaded(c)]);
    RunOne(stat, s2, Loaded(c));
    assert Collected(Observed(s.disk, n), n) == s.disk;
    hide Run;
    assert Next(stat, s2, Loaded(c)).calls == s.calls - {c};
  }

  function FirstHalf(files: nat, f: nat, a: Version): seq<Event> {
    Changes(f, a) + (Sign(0, files) + ReadAll(0, files))
  }

  function SecondHalf(files: nat, f: nat, n: nat): seq<Event> {
    Changes(f, n) + ([Tick(SIGNATURE_CHECK_INTERVAL)] + (Sign(1, files) + [Fetch(1)]))
  }

  function StaleRun(files: nat, f: nat, a: Version, b: Version): seq<Event>
    requires a < b
  {
    FirstHalf(files, f, a) + SecondHalf(files, f, b - a)
  }

  /** After a load that had the disk to itself */
  ghost predicate LoadedOnce(s: State, disk: Versions) {
    && s.disk == disk && |s.since| == |disk| && s.clock == 0 && s.lock.None? && s.calls == map[]
    && s.cache == Cache(Some(disk), Some(disk), 0, Some(disk)) && s.results == [Result(disk, 0, true, disk)]
  }

  lemma RunFirstHalf<S>(stat: Stat<S>, files: nat, f: nat, a: Version)
    requires f < files
    ensures LoadedOnce(Run(stat, Initial(files), FirstHalf(files, f, a)), seq(files, _ => 0)[f := a])
  {
    var zeros: Versions := seq(files, _ => 0);
    var before := zeros[f := a];
    var s0 := Initial(files);
    RunChanges(stat, s0, f, a);
    var s1 := Run(stat, s0, Changes(f, a));
    assert s1.disk == before;
    RunSign(stat, s1, 0);
    var s2 := Run(stat, s1, Sign(0, files));
    RunReadAll(stat, s2, 0, before, 0);
    assert Run(stat, s2, ReadAll(0, files)).calls == map[];
    hide Run, Changes, Sign, ReadAll;
    RunAppend(stat, s1, Sign(0, files), ReadAll(0, files));
    RunAppend(stat, s0, Changes(f, a), Sign(0, files) + ReadAll(0, files));
  }

  lemma RunSecondHalf<S>(stat: Stat<S>, s: State, disk: Versions, f: nat, n: nat)
    requires LoadedOnce(s, disk) && f < |disk| && SameSignature(stat, disk, disk[f := disk[f] + n])
    ensures Run(stat, s, SecondHalf(|disk|, f, n)).results ==
            s.results + [Result(disk[f := disk[f] + n], SIGNATURE_CHECK_INTERVAL, true, disk)]
  {
    var files, after := |disk|, disk[f := disk[f] + n];
    var tail5 := Sign(1, files) + [Fetch(1)];
    var tail4 := [Tick(SIGNATURE_CHECK_INTERVAL)] + tail5;
    RunChanges(stat, s, f, n);
    var s4 := Run(stat, s, Changes(f, n));
    RunOne(stat, s4, Tick(SIGNATURE_CHECK_INTERVAL));
    var s5 := s4.(clock := SIGNATURE_CHECK_INTERVAL);
    RunSign(stat, s5, 1);
    var s6 := Run(stat, s5, Sign(1, files));
    RunOne(stat, s6, Fetch(1));
    assert s6.cache.CanReuse(stat, after);
    hide Run, Changes, Sign, ReadAll, SameSignature;
    RunAppend(stat, s5, Sign(1, files), [Fetch(1)]);
    RunAppend(stat, s4, [Tick(SIGNATURE_CHECK_INTERVAL)], tail5);
    RunAppend(stat, s, Changes(f, n), tail4);
  }

  /** If a file returns to an entry, a load that observes its later version returns the earlier one. */
  lemma RepeatedSignatureIsStale<S>(stat: Stat<S>, files: nat, f: nat, a: Version, b: Version)
    requires f < files && a < b && stat(f, a) == stat(f, b)
    ensures
      var zeros := seq(files, _ => 0);
      var before, after := zeros[f := a], zeros[f := b];
      Run(stat, Initial(files), StaleRun(files, f, a, b)).results ==
        [Result(before, 0, true, before), Result(after, SIGNATURE_CHECK_INTERVAL, true, before)]
  {
    var zeros: Versions := seq(files, _ => 0);
    var before, after := zeros[f := a], zeros[f := b];
    assert after == before[f := before[f] + (b - a)];
    assert SameSignature(stat, before, after);
    hide Run, Initial, FirstHalf, SecondHalf, SameSignature;
    RunFirstHalf(stat, files, f, a);
    var s := Run(stat, Initial(files), FirstHalf(files, f, a));
    RunSecondHalf(stat, s, before, f, b - a);
    RunAppend(stat, Initial(files), FirstHalf(files, f, a), SecondHalf(files, f, b - a));
  }

  /** Loads are fresh in every run exactly when no file ever returns to an earlier entry. */
  lemma FreshnessCondition<S(!new)>(stat: Stat<S>, files: nat)
    ensures (forall events :: AllFresh(Run(stat, Initial(files), events)))
       <==> (forall last: Versions :: |last| == files ==> NeverRepeats(stat, last))
  {
    if forall last: Versions :: |last| == files ==> NeverRepeats(stat, last) {
      forall events ensures AllFresh(Run(stat, Initial(files), events)) {
        DiskOnlyGrows(stat, Initial(files), events);
        LoadsAreFresh(stat, files, events);
      }
    } else {
      var last: Versions :| |last| == files && !NeverRepeats(stat, last);
      var f, a: Version, b: Version :| 0 <= f < |last| && a < b <= last[f] && stat(f, a) == stat(f, b);
      hide NeverRepeats, Run, Initial;
      RepeatedSignatureIsStale(stat, files, f, a, b);
      var r := Run(stat, Initial(files), StaleRun(files, f, a, b)).results[1];
      assert r.config[f] < r.signature[f];
      assert !IsFresh(r);
      assert !AllFresh(Run(stat, Initial(files), StaleRun(files, f, a, b)));
    }
  }

  // ----- the cache is used

  /**
    A load scans exactly if the last observation is a second old or there is none, and reads
    exactly if no configuration is cached or a file's entry differs from the cached signature's.
    After an invalidation there is no observation and no cached configuration.
   */
  lemma CacheIsUsedExactly<S>(stat: Stat<S>, s: State, c: nat)
    requires s.lock.None?
    ensures
      var cleared := Next(stat, s, Invalidate).cache;
      cleared.config.None? && cleared.cachedSignature.None? && cleared.observedSignature.None?
    ensures c !in s.calls ==>
      var call := Next(stat, s, Begin(c)).calls[c];
      call.Scanning? <==> s.cache.observedSignature.None? || s.clock - s.cache.checkedAt >= 1000
    ensures c in s.calls && s.calls[c].Signed? ==>
      var s' := Next(stat, s, Fetch(c));
      (s'.lock == Some(c) <==>
        || s.cache.config.None? || s.cache.cachedSignature.None?
        || |s.cache.cachedSignature.value| != |s.calls[c].signature|
        || exists f :: 0 <= f < |s.calls[c].signature| &&
             stat(f, s.cache.cachedSignature.value[f]) != stat(f, s.calls[c].signature[f]))
  {
  }

  // ----- the cache object

  class AgentRuntimeManager<!S(==)> {
    const stat: Stat<S>
    const files: nat
    var cachedSignature: Option<Versions>
    var observedSignature: Option<Versions>
    var checkedAt: int
    var cachedConfig: Option<Versions>

    ghost function Fields(): Cache
      reads this
    {
      Cache(cachedSignature, observedSignature, checkedAt, cachedConfig)
    }

    /** The configuration is no older than its signature, and neither is newer than the disk. */
    ghost predicate Valid(disk: Versions)
      reads this
    {
      && |disk| == files
      && (cachedConfig.Some? ==> AtLeast(disk, cachedConfig.value))
      && (cachedSignature.Some? ==> cachedConfig.Some? && AtLeast(cachedConfig.value, cachedSignature.value))
      && (observedSignature.Some? ==> AtLeast(disk, observedSignature.value))
    }

    constructor (stat: Stat<S>, files: nat)
      ensures this.stat == stat && this.files == files && Fields() == CLEARED
    {
      this.stat, this.files := stat, files;
      cachedSignature, observedSignature, checkedAt, cachedConfig := None, None, 0, None;
    }

    method InvalidateCache()
      modifies this
      ensures Fields() == CLEARED && forall disk :: |disk| == files ==> Valid(disk)
    {
      cachedSignature, observedSignature, cachedConfig, checkedAt := None, None, None, 0;
    }

    /** `scanned` is what a scan of the disk would see. */
    method CurrentSignature(now: int, scanned: Versions) returns (signature: Versions, reobserved: bool)
      requires Valid(scanned)
      modifies this`observedSignature, this`checkedAt
      ensures Valid(scanned) && AtLeast(scanned, signature) && (reobserved ==> signature == scanned)
      ensures reobserved <==> old(observedSignature).None? || now - old(checkedAt) >= 1000
      ensures reobserved <==> old(Fields()).Throttled(now).None?
      ensures Fields() == if reobserved then old(Fields()).Remember(scanned, now) else old(Fields())
      ensures observedSignature == Some(signature)
    {
      if observedSignature.Some? && now - checkedAt < SIGNATURE_CHECK_INTERVAL {
        return observedSignature.value, false;
      }
      observedSignature := Some(scanned);
      checkedAt := now;
      return scanned, true;
    }

    /** `read` is what a load would read, after the signature was taken. */
    method LoadRuntimeConfig(now: int, scanned: Versions, read: Versions) returns (config: Versions)
      requires Valid(scanned) && AtLeast(read, scanned) && NeverRepeats(stat, read)
      modifies this
      ensures Valid(read) && AtLeast(read, config)
      ensures old(Fields()).Throttled(now).None? ==> AtLeast(config, scanned)
      ensures old(Fields()).Throttled(now).Some? ==> AtLeast(config, old(observedSignature).value)
      ensures observedSignature.Some? && AtLeast(scanned, observedSignature.value)
      ensures config ==
        if old(cachedConfig).Some? && old(cachedSignature).Some? && |old(cachedSignature).value| == files
           && forall f :: 0 <= f < files ==>
                stat(f, old(cachedSignature).value[f]) == stat(f, observedSignature.value[f])
        then old(cachedConfig).value else read
      ensures
        var before := old(Fields()).(observedSignature := observedSignature, checkedAt := checkedAt);
        var reuse := before.CanReuse(stat, observedSignature.value);
        && Fields() == (if reuse then before else before.Keep(observedSignature.value, read))
        && cachedConfig == Some(config)
    {
      var signature, _ := CurrentSignature(now, scanned);
      AtLeastTwice(read, scanned, signature);
      if cachedSignature.Some? && SameSignature(stat, cachedSignature.value, signature) && cachedConfig.Some? {
        AtLeastTwice(scanned, cachedConfig.value, cachedSignature.value);
        AtLeastTwice(read, scanned, cachedSignature.value);
        SameVersions(stat, read, cachedSignature.value, signature);
        return cachedConfig.value;
      }
      cachedSignature := Some(signature);
      cachedConfig := Some(read);
      return read;
    }
  }
}
