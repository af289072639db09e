/** The resource manager cache of manager_factory.go: `ManagerFor` one call at a time, and under
    every interleaving of its steps with those of other callers. */
module ManagerCache {
  import opened Values

  /** The triple a resource manager is asked for. */
  datatype Request = Request(account: string, region: string, role: string)

  /** The cache key `fmt.Sprintf("%s/%s/%s", ...)` makes of a triple. */
  function Key(r: Request): string {
    r.account + "/" + r.region + "/" + r.role
  }

  /** Account and region contain no slash; the role, an ARN, may. */
  predicate WellFormed(r: Request) {
    '/' !in r.account && '/' !in r.region
  }

  lemma SplitUnique(a: string, s: string, b: string, t: string)
    requires '/' !in a && '/' !in b
    requires a + "/" + s == b + "/" + t
    ensures a == b && s == t
  {
    var u, v := a + "/" + s, b + "/" + t;
    assert u[|a|] == '/' && v[|b|] == '/';
    assert forall i :: 0 <= i < |a| ==> u[i] == a[i];
    assert forall i :: 0 <= i < |b| ==> v[i] == b[i];
    assert |a| == |b|;
    assert u[..|a|] == a && v[..|b|] == b;
    assert u[|a| + 1..] == s && v[|b| + 1..] == t;
  }

  lemma KeyInjective(a: Request, b: Request)
    requires WellFormed(a) && WellFormed(b)
    ensures Key(a) == Key(b) <==> a == b
  {
    if Key(a) == Key(b) {
      assert Key(a) == a.account + "/" + (a.region + "/" + a.role);
      assert Key(b) == b.account + "/" + (b.region + "/" + b.role);
      SplitUnique(a.account, a.region + "/" + a.role, b.account, b.region + "/" + b.role);
      SplitUnique(a.region, a.role, b.region, b.role);
    }
  }

  /** Without the condition different triples can share a key. */
  lemma SlashesCollide(x: string, y: string, z: string, role: string)
    ensures Key(Request(x + "/" + y, z, role)) == Key(Request(x, y + "/" + z, role))
    ensures Request(x + "/" + y, z, role) != Request(x, y + "/" + z, role)
  {
    assert |x + "/" + y| > |x|;
  }

  /* ----- one call at a time ----- */

  class ResourceManager {
    const request: Request

    constructor (request: Request)
      ensures this.request == request
    {
      this.request := request;
    }
  }

  class ResourceManagerFactory {
    var rmCache: map<string, ResourceManager>
    ghost var builds: seq<Request>

    /** Each cached manager was built for a triple with that key, and every build was for a cached key. */
    ghost predicate Valid()
      reads this
    {
      && (forall k :: k in rmCache ==> Key(rmCache[k].request) == k)
      && (forall i :: 0 <= i < |builds| ==> Key(builds[i]) in rmCache)
      && (forall i, j :: 0 <= i < j < |builds| ==> Key(builds[i]) != Key(builds[j]))
    }

    constructor ()
      ensures Valid() && rmCache == map[] && builds == []
    {
      rmCache, builds := map[], [];
    }

    /** Calls that do not overlap: a key is built for once. The manager is one for the triple's key,
        hence the triple's own unless it or the triple it was built for has a slash to confuse them. */
    method ManagerFor(account: string, region: string, role: string) returns (rm: ResourceManager)
      requires Valid()
      modifies this
      ensures Valid()
      ensures var request := Request(account, region, role);
              && Key(rm.request) == Key(request)
              && (WellFormed(request) && WellFormed(rm.request) ==> rm.request == request)
              && rmCache == old(rmCache)[Key(request) := rm]
              && (if Key(request) in old(rmCache) then rm == old(rmCache)[Key(request)] && builds == old(builds)
                  else fresh(rm) && rm.request == request && builds == old(builds) + [request])
    {
      var request := Request(account, region, role);
      var rmId := Key(request);
      if rmId in rmCache {
        rm := rmCache[rmId];
        if WellFormed(request) && WellFormed(rm.request) {
          KeyInjective(rm.request, request);
        }
        return;
      }
      rm := new ResourceManager(request);
      rmCache := rmCache[rmId := rm];
      builds := builds + [request];
    }
  }

  /* ----- interleaved calls ----- */

  /** Where a caller is in `ManagerFor`; managers are numbered in the order they are built. */
  datatype Phase =
    | Start
    | Reading
    | Looked(found: Option<nat>)
    | Missed
    | Writing
    | Built(made: nat)
    | Stored(kept: nat)
    | Done(manager: nat, own: bool)

  datatype Caller = Caller(request: Request, phase: Phase)

  datatype Build = Build(request: Request, builder: nat)

  /** What happened to the cache, in order: a lookup or a write, and by which caller. */
  datatype Event = Lookup(caller: nat) | Write(caller: nat)

  datatype State = State(cache: map<string, nat>, builds: seq<Build>, callers: seq<Caller>, log: seq<Event>)

  predicate HoldsRead(p: Phase) {
    p.Reading? || p.Looked?
  }

  predicate HoldsWrite(p: Phase) {
    p.Writing? || p.Built? || p.Stored?
  }

  /** `RLock` waits for a writer, `Lock` waits for everyone: what `sync.RWMutex` promises. */
  predicate Enabled(s: State, c: nat) {
    c < |s.callers| &&
    match s.callers[c].phase
    case Start => forall d :: 0 <= d < |s.callers| ==> !HoldsWrite(s.callers[d].phase)
    case Missed => forall d :: 0 <= d < |s.callers| ==> !HoldsWrite(s.callers[d].phase) && !HoldsRead(s.callers[d].phase)
    case Done(_, _) => false
    case _ => true
  }

  function Move(s: State, c: nat, p: Phase): State
    requires c < |s.callers|
  {
    s.(callers := s.callers[c := s.callers[c].(phase := p)])
  }

  /** Caller `c` takes its next step. */
  function Next(s: State, c: nat): State
    requires Enabled(s, c)
  {
    var key := Key(s.callers[c].request);
    match s.callers[c].phase
    case Start => Move(s, c, Reading)
    case Reading =>
      Move(s, c, Looked(if key in s.cache then Some(s.cache[key]) else None)).(log := s.log + [Lookup(c)])
    case Looked(found) => Move(s, c, if found.Some? then Done(found.value, false) else Missed)
    case Missed => Move(s, c, Writing)
    case Writing => Move(s, c, Built(|s.builds|)).(builds := s.builds + [Build(s.callers[c].request, c)])
    case Built(m) => Move(s, c, Stored(m)).(cache := s.cache[key := m], log := s.log + [Write(c)])
    case Stored(m) => Move(s, c, Done(m, true))
  }

  function Init(requests: seq<Request>): State {
    State(map[], [], seq(|requests|, i requires 0 <= i < |requests| => Caller(requests[i], Start)), [])
  }

  /** The schedule of caller steps leads from `s` to `t`. */
  ghost predicate Path(s: State, schedule: seq<nat>, t: State)
    decreases |schedule|
  {
    if schedule == [] then s == t
    else Enabled(s, schedule[0]) && Path(Next(s, schedule[0]), schedule[1..], t)
  }

  ghost predicate Reaches(requests: seq<Request>, schedule: seq<nat>, s: State) {
    Path(Init(requests), schedule, s)
  }

  /* ----- the invariant ----- */

  ghost predicate MutualExclusion(s: State) {
    forall c, d :: 0 <= c < |s.callers| && 0 <= d < |s.callers| && c != d && HoldsWrite(s.callers[c].phase) ==>
      !HoldsWrite(s.callers[d].phase) && !HoldsRead(s.callers[d].phase)
  }

  /** The manager a phase holds on to. */
  function ManagerOf(p: Phase): Option<nat> {
    match p
    case Looked(found) => found
    case Built(m) => Some(m)
    case Stored(m) => Some(m)
    case Done(m, _) => Some(m)
    case _ => None
  }

  /** The caller built this manager itself. */
  predicate Owns(p: Phase) {
    p.Built? || p.Stored? || (p.Done? && p.own)
  }

  ghost predicate RightManagers(s: State) {
    && (forall k :: k in s.cache ==> s.cache[k] < |s.builds| && Key(s.builds[s.cache[k]].request) == k)
    && (forall c :: 0 <= c < |s.callers| && ManagerOf(s.callers[c].phase).Some? ==>
          var m := ManagerOf(s.callers[c].phase).value;
          m < |s.builds| && s.builds[m].request == s.callers[c].request)
  }

  /** Builders and the managers they built are in bijection. */
  ghost predicate OneBuildEach(s: State) {
    BuildersOwn(s) && OwnersBuilt(s)
  }

  ghost predicate BuildersOwn(s: State) {
    forall m :: 0 <= m < |s.builds| ==>
      var builder := s.builds[m].builder;
      && builder < |s.callers| && Owns(s.callers[builder].phase)
      && ManagerOf(s.callers[builder].phase) == Some(m)
  }

  ghost predicate OwnersBuilt(s: State) {
    forall c :: 0 <= c < |s.callers| && Owns(s.callers[c].phase) ==>
      var m := ManagerOf(s.callers[c].phase).value;
      m < |s.builds| && s.builds[m].builder == c
  }

  /** Some write for the key is in the first `n` events. */
  ghost predicate WrittenBefore(s: State, key: string, n: nat)
    requires n <= |s.log|
  {
    exists i :: 0 <= i < n && WritesKey(s, i, key)
  }

  ghost predicate WritesKey(s: State, i: nat, key: string) {
    i < |s.log| && s.log[i].Write? && s.log[i].caller < |s.callers| && Key(s.callers[s.log[i].caller].request) == key
  }

  /** The phases after a lookup that found nothing, and after one that found a manager. */
  predicate LookedInVain(p: Phase) {
    p == Looked(None) || p.Missed? || p.Writing? || Owns(p)
  }

  predicate FoundOne(p: Phase) {
    (p.Looked? && p.found.Some?) || (p.Done? && !p.own)
  }

  /** The cache has exactly the keys written so far. */
  ghost predicate CacheIsLog(s: State) {
    forall k :: k in s.cache <==> WrittenBefore(s, k, |s.log|)
  }

  /** Each logged lookup saw whether its key had been written by then. */
  ghost predicate LookupsTold(s: State) {
    forall i :: 0 <= i < |s.log| ==>
      && s.log[i].caller < |s.callers|
      && (s.log[i].Lookup? ==>
            var caller := s.callers[s.log[i].caller];
            if WrittenBefore(s, Key(caller.request), i) then FoundOne(caller.phase) else LookedInVain(caller.phase))
  }

  /** A caller past its lookup has one in the log. */
  ghost predicate LookupsLogged(s: State) {
    forall c :: 0 <= c < |s.callers| && (FoundOne(s.callers[c].phase) || LookedInVain(s.callers[c].phase)) ==>
      Lookup(c) in s.log
  }

  ghost predicate Inv(s: State) {
    && MutualExclusion(s) && RightManagers(s) && OneBuildEach(s)
    && CacheIsLog(s) && LookupsTold(s) && LookupsLogged(s)
  }

  ghost predicate AllWellFormed(s: State) {
    forall c :: 0 <= c < |s.callers| ==> WellFormed(s.callers[c].request)
  }

  lemma KeepsExclusion(s: State, c: nat)
    requires MutualExclusion(s) && Enabled(s, c)
    ensures MutualExclusion(Next(s, c))
  {
  }

  lemma KeepsRightManagers(s: State, c: nat)
    requires RightManagers(s) && AllWellFormed(s) && Enabled(s, c)
    requires forall m :: 0 <= m < |s.builds| ==> WellFormed(s.builds[m].request)
    ensures RightManagers(Next(s, c))
  {
    var key := Key(s.callers[c].request);
    if s.callers[c].phase.Reading? && key in s.cache {
      KeyInjective(s.builds[s.cache[key]].request, s.callers[c].request);
    }
  }

  lemma KeepsBuildersOwn(s: State, c: nat)
    requires OneBuildEach(s) && Enabled(s, c)
    ensures BuildersOwn(Next(s, c))
  {
  }

  lemma KeepsOwnersBuilt(s: State, c: nat)
    requires OneBuildEach(s) && Enabled(s, c)
    ensures OwnersBuilt(Next(s, c))
  {
  }

  /** A step that only appends to the log leaves what was written before where it was. */
  lemma WrittenStable(s: State, s': State, key: string, n: nat)
    requires n <= |s.log| <= |s'.log| && s'.log[..|s.log|] == s.log
    requires |s'.callers| == |s.callers|
    requires forall c :: 0 <= c < |s.callers| ==> s'.callers[c].request == s.callers[c].request
    ensures WrittenBefore(s', key, n) <==> WrittenBefore(s, key, n)
  {
    assert forall i :: 0 <= i < |s.log| ==> s'.log[i] == s.log[i];
    if WrittenBefore(s, key, n) {
      var i :| 0 <= i < n && WritesKey(s, i, key);
      assert WritesKey(s', i, key);
    }
    if WrittenBefore(s', key, n) {
      var i :| 0 <= i < n && WritesKey(s', i, key);
      assert WritesKey(s, i, key);
    }
  }

  lemma KeepsCacheIsLog(s: State, c: nat)
    requires CacheIsLog(s) && Enabled(s, c)
    ensures CacheIsLog(Next(s, c))
  {
    var s' := Next(s, c);
    var key, n := Key(s.callers[c].request), |s.log|;
    forall k
      ensures k in s'.cache <==> WrittenBefore(s', k, |s'.log|)
    {
      WrittenStable(s, s', k, n);
      if |s'.log| > n {
        LastEvent(s', k);
        assert WritesKey(s', n, k) <==> s.callers[c].phase.Built? && k == key;
      }
    }
  }

  lemma LastEvent(s: State, key: string)
    requires |s.log| > 0
    ensures WrittenBefore(s, key, |s.log|) <==> WrittenBefore(s, key, |s.log| - 1) || WritesKey(s, |s.log| - 1, key)
  {
  }

  lemma KeepsLookupsTold(s: State, c: nat)
    requires CacheIsLog(s) && LookupsTold(s) && Enabled(s, c)
    ensures LookupsTold(Next(s, c))
  {
    var s' := Next(s, c);
    forall i | 0 <= i < |s'.log|
      ensures s'.log[i].caller < |s'.callers|
      ensures s'.log[i].Lookup? ==>
                var caller := s'.callers[s'.log[i].caller];
                if WrittenBefore(s', Key(caller.request), i) then FoundOne(caller.phase) else LookedInVain(caller.phase)
    {
      var d := s'.log[i].caller;
      if i < |s.log| {
        assert s'.log[i] == s.log[i];
      }
      assert s'.callers[d].request == s.callers[d].request;
      WrittenStable(s, s', Key(s.callers[d].request), i);
    }
  }

  lemma KeepsLookupsLogged(s: State, c: nat)
    requires LookupsLogged(s) && Enabled(s, c)
    ensures LookupsLogged(Next(s, c))
  {
  }

  lemma BuildsWellFormed(s: State)
    requires RightManagers(s) && BuildersOwn(s) && AllWellFormed(s)
    ensures forall m :: 0 <= m < |s.builds| ==> WellFormed(s.builds[m].request)
  {
    forall m | 0 <= m < |s.builds|
      ensures WellFormed(s.builds[m].request)
    {
      assert s.builds[m].request == s.callers[s.builds[m].builder].request;
    }
  }

  lemma StepKeepsInv(s: State, c: nat)
    requires Inv(s) && AllWellFormed(s) && Enabled(s, c)
    ensures Inv(Next(s, c))
  {
    BuildsWellFormed(s);
    KeepsExclusion(s, c);
    KeepsRightManagers(s, c);
    KeepsBuildersOwn(s, c);
    KeepsOwnersBuilt(s, c);
    KeepsCacheIsLog(s, c);
    KeepsLookupsTold(s, c);
    KeepsLookupsLogged(s, c);
  }

  /** No step changes what callers ask for. */
  lemma StepKeepsRequests(s: State, c: nat)
    requires Enabled(s, c)
    ensures |Next(s, c).callers| == |s.callers|
    ensures forall d :: 0 <= d < |s.callers| ==> Next(s, c).callers[d].request == s.callers[d].request
  {
  }

  /** Every step of a run keeps the invariant. */
  lemma {:induction false} PathKeepsInv(s: State, schedule: seq<nat>, t: State)
    requires Inv(s) && AllWellFormed(s) && Path(s, schedule, t)
    ensures Inv(t) && |t.callers| == |s.callers|
    ensures forall c :: 0 <= c < |s.callers| ==> t.callers[c].request == s.callers[c].request
    decreases |schedule|
  {
    if schedule != [] {
      StepKeepsInv(s, schedule[0]);
      StepKeepsRequests(s, schedule[0]);
      PathKeepsInv(Next(s, schedule[0]), schedule[1..], t);
    }
  }

  /** Every reachable state satisfies the invariant. */
  lemma Reachable(requests: seq<Request>, schedule: seq<nat>, s: State)
    requires Reaches(requests, schedule, s)
    requires forall r :: r in requests ==> WellFormed(r)
    ensures Inv(s) && |s.callers| == |requests|
    ensures forall c :: 0 <= c < |requests| ==> s.callers[c].request == requests[c]
  {
    PathKeepsInv(Init(requests), schedule, s);
  }

  /* ----- progress ----- */

  /** Whoever is not done, someone can take a step: the two locks never deadlock. */
  lemma NoDeadlock(s: State)
    requires !Quiet(s)
    ensures exists c :: Enabled(s, c)
  {
    var c :| 0 <= c < |s.callers| && !s.callers[c].phase.Done?;
    if exists d :: 0 <= d < |s.callers| && (HoldsWrite(s.callers[d].phase) || HoldsRead(s.callers[d].phase)) {
      var d :| 0 <= d < |s.callers| && (HoldsWrite(s.callers[d].phase) || HoldsRead(s.callers[d].phase));
      assert Enabled(s, d);
    } else {
      assert Enabled(s, c);
    }
  }

  /** The most steps a phase is away from the end. */
  function StepsLeft(p: Phase): nat {
    match p
    case Start => 7
    case Reading => 6
    case Looked(_) => 5
    case Missed => 4
    case Writing => 3
    case Built(_) => 2
    case Stored(_) => 1
    case Done(_, _) => 0
  }

  function AllStepsLeft(callers: seq<Caller>): nat {
    if callers == [] then 0 else StepsLeft(callers[0].phase) + AllStepsLeft(callers[1..])
  }

  lemma {:induction false} MoveTakesSteps(callers: seq<Caller>, c: nat, p: Phase)
    requires c < |callers|
    ensures AllStepsLeft(callers[c := callers[c].(phase := p)]) == AllStepsLeft(callers) - StepsLeft(callers[c].phase) + StepsLeft(p)
  {
    var after := callers[c := callers[c].(phase := p)];
    if c == 0 {
      assert after[1..] == callers[1..];
    } else {
      MoveTakesSteps(callers[1..], c - 1, p);
      assert after[1..] == callers[1..][c - 1 := callers[1..][c - 1].(phase := p)];
    }
  }

  /** No schedule goes on for longer than the steps that are left, so with `NoDeadlock` every caller
      gets its manager if callers that can move do. */
  lemma {:induction false} SchedulesEnd(s: State, schedule: seq<nat>, t: State)
    requires Path(s, schedule, t)
    ensures |schedule| + AllStepsLeft(t.callers) <= AllStepsLeft(s.callers)
    decreases |schedule|
  {
    if schedule != [] {
      var c := schedule[0];
      MoveTakesSteps(s.callers, c, Next(s, c).callers[c].phase);
      SchedulesEnd(Next(s, c), schedule[1..], t);
    }
  }

  /* ----- the properties ----- */

  /** Whatever the interleaving, a manager returned was built for exactly the triple asked for. */
  lemma ReturnsTheRightManager(requests: seq<Request>, schedule: seq<nat>, s: State, c: nat)
    requires Reaches(requests, schedule, s)
    requires forall r :: r in requests ==> WellFormed(r)
    requires c < |requests| && c < |s.callers| && s.callers[c].phase.Done?
    ensures s.callers[c].phase.manager < |s.builds| && s.builds[s.callers[c].phase.manager].request == requests[c]
  {
    Reachable(requests, schedule, s);
  }

  /** However a run continues, no cached key and no manager is lost. */
  lemma {:induction false} CachedKeysStay(s: State, schedule: seq<nat>, t: State)
    requires Path(s, schedule, t)
    ensures s.cache.Keys <= t.cache.Keys && s.builds <= t.builds
    decreases |schedule|
  {
    if schedule != [] {
      CachedKeysStay(Next(s, schedule[0]), schedule[1..], t);
    }
  }

  /** The callers of a key that looked before its first write. */
  ghost function EarlyCallers(s: State, key: string): set<nat> {
    set c: nat | c < |s.callers| && Key(s.callers[c].request) == key && LookedEarly(s, c)
  }

  ghost predicate LookedEarly(s: State, c: nat)
    requires c < |s.callers|
  {
    exists i :: 0 <= i < |s.log| && s.log[i] == Lookup(c) && !WrittenBefore(s, Key(s.callers[c].request), i)
  }

  /** The managers built for a key. */
  ghost function BuiltFor(s: State, key: string): set<nat> {
    set m: nat | m < |s.builds| && Key(s.builds[m].request) == key
  }

  ghost predicate Quiet(s: State) {
    forall c :: 0 <= c < |s.callers| ==> s.callers[c].phase.Done?
  }

  lemma EarlyCallerBuilt(s: State, key: string, c: nat)
    requires Inv(s) && Quiet(s) && c in EarlyCallers(s, key)
    ensures s.callers[c].phase.manager in BuiltFor(s, key) && s.builds[s.callers[c].phase.manager].builder == c
  {
  }

  lemma BuilderWasEarly(s: State, key: string, m: nat)
    requires Inv(s) && Quiet(s) && m in BuiltFor(s, key)
    ensures s.builds[m].builder in EarlyCallers(s, key)
  {
  }

  /** The callers that built the managers of a key. */
  ghost function Builders(s: State, key: string): set<nat> {
    set m | m in BuiltFor(s, key) :: s.builds[m].builder
  }

  /** When every caller is done, as many managers were built for a key as callers looked before its
      first write: those callers, one manager each. */
  lemma BuildsAreEarlyCallers(requests: seq<Request>, schedule: seq<nat>, s: State, key: string)
    requires Reaches(requests, schedule, s) && Quiet(s)
    requires forall r :: r in requests ==> WellFormed(r)
    ensures Builders(s, key) == EarlyCallers(s, key)
    ensures |BuiltFor(s, key)| == |EarlyCallers(s, key)|
  {
    Reachable(requests, schedule, s);
    forall c | c in EarlyCallers(s, key)
      ensures c in Builders(s, key)
    {
      EarlyCallerBuilt(s, key, c);
    }
    forall m | m in BuiltFor(s, key)
      ensures s.builds[m].builder in EarlyCallers(s, key)
    {
      BuilderWasEarly(s, key, m);
    }
    assert Builders(s, key) == EarlyCallers(s, key);
    ImageSize(BuiltFor(s, key), s.builds);
  }

  lemma {:induction false} ImageSize(ms: set<nat>, builds: seq<Build>)
    requires forall m :: m in ms ==> m < |builds|
    requires forall m, n :: m in ms && n in ms && builds[m].builder == builds[n].builder ==> m == n
    ensures |set m | m in ms :: builds[m].builder| == |ms|
  {
    if ms != {} {
      var x :| x in ms;
      ImageSize(ms - {x}, builds);
      var rest := set m | m in ms - {x} :: builds[m].builder;
      assert (set m | m in ms :: builds[m].builder) == rest + {builds[x].builder};
      assert builds[x].builder !in rest;
    }
  }

  ghost predicate LooksFor(s: State, j: nat, key: string) {
    j < |s.log| && s.log[j].Lookup? && s.log[j].caller < |s.callers| && Key(s.callers[s.log[j].caller].request) == key
  }

  /** Event `i` writes the key, and before it only caller `c` has looked for it. */
  ghost predicate FirstServed(s: State, key: string, c: nat, i: nat) {
    WritesKey(s, i, key) && forall j: nat :: j < i && LooksFor(s, j, key) ==> s.log[j].caller == c
  }

  lemma EarlyIsFirst(s: State, key: string, c: nat, i: nat, d: nat)
    requires FirstServed(s, key, c, i) && d in EarlyCallers(s, key)
    ensures d == c
  {
  }

  lemma WrittenIsBuilt(s: State, key: string, i: nat)
    requires CacheIsLog(s) && RightManagers(s) && WritesKey(s, i, key)
    ensures BuiltFor(s, key) != {}
  {
    assert WrittenBefore(s, key, |s.log|);
    assert s.cache[key] in BuiltFor(s, key);
  }

  /** Calls that do not overlap before the first write build exactly one manager for the key. */
  lemma OneBuildWithoutRace(requests: seq<Request>, schedule: seq<nat>, s: State, key: string, c: nat, i: nat)
    requires Reaches(requests, schedule, s) && Quiet(s)
    requires forall r :: r in requests ==> WellFormed(r)
    requires FirstServed(s, key, c, i)
    ensures EarlyCallers(s, key) == {c} && |BuiltFor(s, key)| == 1
  {
    Reachable(requests, schedule, s);
    BuildsAreEarlyCallers(requests, schedule, s, key);
    WrittenIsBuilt(s, key, i);
    var d :| d in EarlyCallers(s, key);
    forall d | d in EarlyCallers(s, key)
      ensures d == c
    {
      EarlyIsFirst(s, key, c, i, d);
    }
    assert EarlyCallers(s, key) == {c};
  }

  lemma {:induction false} PathAppend(s: State, a: seq<nat>, t: State, b: seq<nat>, u: State)
    requires Path(s, a, t) && Path(t, b, u)
    ensures Path(s, a + b, u)
    decreases |a|
  {
    if a == [] {
      assert a + b == b;
    } else {
      assert (a + b)[1..] == a[1..] + b;
      PathAppend(Next(s, a[0]), a[1..], t, b, u);
    }
  }

  /** Two callers of one triple: both have looked, then the first has built, then the second. */
  function BothLooked(r: Request): State {
    State(map[], [], [Caller(r, Missed), Caller(r, Missed)], [Lookup(0), Lookup(1)])
  }

  function FirstBuilt(r: Request): State {
    State(map[Key(r) := 0], [Build(r, 0)], [Caller(r, Done(0, true)), Caller(r, Missed)],
          [Lookup(0), Lookup(1), Write(0)])
  }

  function BothBuilt(r: Request): State {
    State(map[Key(r) := 1], [Build(r, 0), Build(r, 1)], [Caller(r, Done(0, true)), Caller(r, Done(1, true))],
          [Lookup(0), Lookup(1), Write(0), Write(1)])
  }

  lemma BothLook(r: Request)
    ensures Path(Init([r, r]), [0, 0, 0] + [1, 1, 1], BothLooked(r))
  {
    var s0 := Init([r, r]);
    var s1 := State(map[], [], [Caller(r, Missed), Caller(r, Start)], [Lookup(0)]);
    assert s0 == State(map[], [], [Caller(r, Start), Caller(r, Start)], []);
    LookInVain(s0, 0, s1);
    LookInVain(s1, 1, BothLooked(r));
    PathAppend(s0, [0, 0, 0], s1, [1, 1, 1], BothLooked(r));
  }

  lemma FirstBuilds(r: Request)
    ensures Path(BothLooked(r), [0, 0, 0, 0], FirstBuilt(r))
  {
  }

  lemma SecondBuilds(r: Request)
    ensures Path(FirstBuilt(r), [1, 1, 1, 1], BothBuilt(r))
  {
  }

  /** The lookup is not repeated under the write lock, so two callers that both look first build two
      managers, and each keeps its own. */
  lemma RaceBuildsTwo(r: Request)
    ensures exists schedule, s :: Reaches([r, r], schedule, s) && Raced(s, r)
  {
    BothLook(r);
    FirstBuilds(r);
    SecondBuilds(r);
    PathAppend(BothLooked(r), [0, 0, 0, 0], FirstBuilt(r), [1, 1, 1, 1], BothBuilt(r));
    PathAppend(Init([r, r]), [0, 0, 0] + [1, 1, 1], BothLooked(r), [0, 0, 0, 0] + [1, 1, 1, 1], BothBuilt(r));
    RacedState(r, BothBuilt(r));
    assert Reaches([r, r], [0, 0, 0] + [1, 1, 1] + ([0, 0, 0, 0] + [1, 1, 1, 1]), BothBuilt(r));
  }

  /** Both callers are done, with different managers for the same key, and the cache has the second. */
  ghost predicate Raced(s: State, r: Request) {
    && s.callers == [Caller(r, Done(0, true)), Caller(r, Done(1, true))]
    && BuiltFor(s, Key(r)) == {0, 1}
    && s.cache == map[Key(r) := 1]
  }

  lemma RacedState(r: Request, s: State)
    requires s.callers == [Caller(r, Done(0, true)), Caller(r, Done(1, true))]
    requires s.builds == [Build(r, 0), Build(r, 1)] && s.cache == map[Key(r) := 1]
    ensures Raced(s, r)
  {
  }

  lemma LookInVain(s: State, c: nat, t: State)
    requires Enabled(s, c) && s.callers[c].phase.Start? && Key(s.callers[c].request) !in s.cache
    requires t == Move(s, c, Missed).(log := s.log + [Lookup(c)])
    ensures Path(s, [c, c, c], t)
  {
    var s1 := Next(s, c);
    var s2 := Next(s1, c);
    assert Next(s2, c) == t;
    TwoSteps(s1, c, t);
    assert [c, c, c][1..] == [c, c];
  }

  lemma TwoSteps(s: State, c: nat, t: State)
    requires Enabled(s, c) && Enabled(Next(s, c), c) && t == Next(Next(s, c), c)
    ensures Path(s, [c, c], t)
  {
  }
}
