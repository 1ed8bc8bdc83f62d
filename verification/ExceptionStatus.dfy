/**
 The exception-to-status map of the API handler: a list that registrations append to, a cached copy of it read
 without the lock, and the first-match lookup over whichever copy a call gets.
 */
module ExceptionStatus {
  import opened Wrappers

  // ---------------------------------------------------------------- lookup

  /** An exception class, as its single-inheritance chain up to `BaseCustomError`. */
  datatype Class = BaseCustomError | Sub(name: string, parent: Class)

  datatype Mapping = Mapping(cls: Class, code: int)

  predicate IsInstance(e: Class, c: Class) {
    e == c || (e.Sub? && IsInstance(e.parent, c))
  }

  /** `i` is the first entry matching an exception of class `e`. */
  predicate FirstHit(table: seq<Mapping>, e: Class, i: nat) {
    && i < |table| && IsInstance(e, table[i].cls)
    && forall k :: 0 <= k < i ==> !IsInstance(e, table[k].cls)
  }

  function Lookup(table: seq<Mapping>, e: Class): Option<int> {
    if table == [] then None
    else if IsInstance(e, table[0].cls) then Some(table[0].code)
    else Lookup(table[1..], e)
  }

  lemma {:induction false} LookupIsFirstHit(table: seq<Mapping>, e: Class, i: nat)
    ensures FirstHit(table, e, i) ==> Lookup(table, e) == Some(table[i].code)
    ensures (forall k :: 0 <= k < |table| ==> !IsInstance(e, table[k].cls)) <==> Lookup(table, e) == None
  {
    if table != [] {
      var rest := table[1..];
      assert forall k :: 0 <= k < |rest| ==> rest[k] == table[k + 1];
      assert forall k :: 0 < k < |table| ==> table[k] == rest[k - 1];
      if 0 < i {
        LookupIsFirstHit(rest, e, i - 1);
      } else {
        LookupIsFirstHit(rest, e, i);
      }
    }
  }

  /** The status an API error is answered with: its own override, else the first match, else 500. */
  method StatusFor(table: seq<Mapping>, e: Class, override: Option<int>) returns (status: int)
    ensures override.Some? ==> status == override.value
    ensures override.None? && Lookup(table, e).Some? ==> status == Lookup(table, e).value
    ensures override.None? && Lookup(table, e).None? ==> status == 500
  {
    status := 500;
    if override.Some? {
      return override.value;
    }
    for i := 0 to |table|
      invariant status == 500
      invariant forall k :: 0 <= k < i ==> !IsInstance(e, table[k].cls)
    {
      if IsInstance(e, table[i].cls) {
        LookupIsFirstHit(table, e, i);
        return table[i].code;
      }
    }
    LookupIsFirstHit(table, e, 0);
  }

  /** A class, and then its parents one after the other. */
  function Ancestor(e: Class, k: nat): Option<Class> {
    if k == 0 then Some(e) else if e.Sub? then Ancestor(e.parent, k - 1) else None
  }

  lemma AncestorOfParent(e: Class, k: nat)
    requires e.Sub?
    ensures Ancestor(e, k + 1) == Ancestor(e.parent, k)
  {
  }

  /** An exception is an instance of exactly its class and the classes above it. */
  lemma {:induction false} InstanceIffAncestor(e: Class, c: Class)
    ensures IsInstance(e, c) <==> exists k: nat :: Ancestor(e, k) == Some(c)
  {
    if e == c {
      assert Ancestor(e, 0) == Some(c);
    } else if e.Sub? {
      InstanceIffAncestor(e.parent, c);
      if k: nat :| Ancestor(e.parent, k) == Some(c) {
        AncestorOfParent(e, k);
      }
      if k: nat :| Ancestor(e, k) == Some(c) {
        assert k != 0;
        var m: nat := k - 1;
        AncestorOfParent(e, m);
        assert Ancestor(e.parent, m) == Some(c);
      }
    } else {
      assert forall k: nat :: Ancestor(e, k) != Some(c);
    }
  }

  /** A class that is not registered itself is answered as its parent is. */
  lemma {:induction false} SubclassIsAnsweredAsParent(table: seq<Mapping>, name: string, parent: Class)
    requires forall k :: 0 <= k < |table| ==> table[k].cls != Sub(name, parent)
    ensures Lookup(table, Sub(name, parent)) == Lookup(table, parent)
  {
    if table != [] {
      SubclassIsAnsweredAsParent(table[1..], name, parent);
    }
  }

  /** Further registrations never change the answer for an exception that already had one. */
  lemma {:induction false} ResolvedStays(table: seq<Mapping>, more: seq<Mapping>, e: Class)
    requires Lookup(table, e).Some?
    ensures Lookup(table + more, e) == Lookup(table, e)
  {
    if !IsInstance(e, table[0].cls) {
      ResolvedStays(table[1..], more, e);
      assert (table + more)[1..] == table[1..] + more;
    }
  }

  /** `c` is the registered class nearest to `e`: every registered class of `e` is `c` or an ancestor of it. */
  ghost predicate Nearest(table: seq<Mapping>, e: Class, c: Class) {
    && IsInstance(e, c)
    && forall k :: 0 <= k < |table| && IsInstance(e, table[k].cls) ==> IsInstance(c, table[k].cls)
  }

  /** No class is first registered after one of its proper ancestors. */
  ghost predicate SpecificFirst(table: seq<Mapping>) {
    forall i, j :: 0 <= i < j < |table| && table[i].cls != table[j].cls && IsInstance(table[j].cls, table[i].cls)
                   ==> RegisteredBefore(table, i, table[j].cls)
  }

  ghost predicate RegisteredBefore(table: seq<Mapping>, i: nat, c: Class) {
    exists k :: 0 <= k < i && k < |table| && table[k].cls == c
  }

  /** The classes an exception belongs to form a chain. */
  lemma {:induction false} AncestorsAreAChain(e: Class, a: Class, b: Class)
    requires IsInstance(e, a) && IsInstance(e, b)
    ensures IsInstance(a, b) || IsInstance(b, a)
  {
    if e != a && e != b {
      AncestorsAreAChain(e.parent, a, b);
    }
  }

  lemma {:induction false} InstanceTransitive(a: Class, b: Class, c: Class)
    requires IsInstance(a, b) && IsInstance(b, c)
    ensures IsInstance(a, c)
  {
    if a != b {
      InstanceTransitive(a.parent, b, c);
    }
  }

  lemma {:induction false} AncestorIsSmaller(a: Class, b: Class)
    requires IsInstance(a, b)
    ensures Depth(b) <= Depth(a)
    ensures Depth(b) == Depth(a) ==> a == b
  {
    if a != b {
      AncestorIsSmaller(a.parent, b);
    }
  }

  function Depth(c: Class): nat {
    if c.Sub? then 1 + Depth(c.parent) else 0
  }

  /** The first match is the nearest registered class for every exception exactly when the table is specific-first. */
  lemma FirstMatchIsNearestIff(table: seq<Mapping>)
    ensures SpecificFirst(table) <==> forall e, i: nat :: FirstHit(table, e, i) ==> Nearest(table, e, table[i].cls)
  {
    if SpecificFirst(table) {
      forall e, i: nat | FirstHit(table, e, i) ensures Nearest(table, e, table[i].cls) {
        forall j | 0 <= j < |table| && IsInstance(e, table[j].cls) ensures IsInstance(table[i].cls, table[j].cls) {
          AncestorsAreAChain(e, table[i].cls, table[j].cls);
          assert i <= j && !RegisteredBefore(table, i, table[j].cls);
        }
      }
    } else {
      var i, j :| 0 <= i < j < |table| && table[i].cls != table[j].cls
                  && IsInstance(table[j].cls, table[i].cls) && !RegisteredBefore(table, i, table[j].cls);
      var e := table[j].cls;
      var f := FindFirst(table, e, i);
      assert table[f].cls != e;
      if IsInstance(table[f].cls, e) {
        AncestorIsSmaller(table[f].cls, e);
        AncestorIsSmaller(e, table[f].cls);
      }
      assert IsInstance(e, table[j].cls) && !Nearest(table, e, table[f].cls);
    }
  }

  lemma {:induction false} FindFirst(table: seq<Mapping>, e: Class, i: nat) returns (f: nat)
    requires i < |table| && IsInstance(e, table[i].cls)
    ensures f <= i && FirstHit(table, e, f)
  {
    f := 0;
    while !IsInstance(e, table[f].cls)
      invariant f <= i && forall k :: 0 <= k < f ==> !IsInstance(e, table[k].cls)
      decreases i - f
    {
      f := f + 1;
    }
  }

  const INFRASTRUCTURE_ERROR := Sub("InfrastructureError", BaseCustomError)
  const REPOSITORY_ERROR := Sub("RepositoryError", BaseCustomError)
  const EXTERNAL_SERVICE_ERROR := Sub("ExternalServiceError", INFRASTRUCTURE_ERROR)

  /** The registrations the handler module makes itself, in its order. */
  const CORE_MAP: seq<Mapping> := [
    Mapping(Sub("EntityNotFoundError", REPOSITORY_ERROR), 404),
    Mapping(Sub("ServiceUnavailableError", INFRASTRUCTURE_ERROR), 503),
    Mapping(Sub("ExternalTimeoutError", EXTERNAL_SERVICE_ERROR), 502),
    Mapping(Sub("S3Exception", EXTERNAL_SERVICE_ERROR), 502),
    Mapping(Sub("SESException", EXTERNAL_SERVICE_ERROR), 502),
    Mapping(EXTERNAL_SERVICE_ERROR, 502),
    Mapping(Sub("OutboundURLNotAllowedError", INFRASTRUCTURE_ERROR), 400),
    Mapping(Sub("InactiveParentError", REPOSITORY_ERROR), 409),
    Mapping(Sub("InvalidInputError", REPOSITORY_ERROR), 400)]

  /** A registered class below its ancestor in the tree comes first: only `ExternalServiceError` has registered descendants. */
  lemma CoreMapIsSpecificFirst()
    ensures SpecificFirst(CORE_MAP)
  {
    forall i, j | 0 <= i < j < |CORE_MAP| && CORE_MAP[i].cls != CORE_MAP[j].cls
      ensures !IsInstance(CORE_MAP[j].cls, CORE_MAP[i].cls)
    {
      CoreDepths(i);
      CoreDepths(j);
      if IsInstance(CORE_MAP[j].cls, CORE_MAP[i].cls) {
        AncestorIsSmaller(CORE_MAP[j].cls, CORE_MAP[i].cls);
      }
    }
  }

  /** In a specific-first table without repeated classes, every registered class is answered with its own code. */
  lemma RegisteredIsAnswered(table: seq<Mapping>, i: nat)
    requires SpecificFirst(table) && i < |table|
    requires forall j, k :: 0 <= j < k < |table| ==> table[j].cls != table[k].cls
    ensures Lookup(table, table[i].cls) == Some(table[i].code)
  {
    hide SpecificFirst, Lookup;
    var e := table[i].cls;
    var f := FindFirst(table, e, i);
    FirstMatchIsNearestIff(table);
    assert Nearest(table, e, table[f].cls);
    AncestorIsSmaller(table[f].cls, e);
    AncestorIsSmaller(e, table[f].cls);
    LookupIsFirstHit(table, e, f);
  }

  /** The nine codes, by class. */
  lemma CoreCodes()
    ensures Lookup(CORE_MAP, Sub("EntityNotFoundError", Sub("RepositoryError", BaseCustomError))) == Some(404)
    ensures Lookup(CORE_MAP, Sub("ServiceUnavailableError", Sub("InfrastructureError", BaseCustomError))) == Some(503)
    ensures forall name :: name in {"ExternalTimeoutError", "S3Exception", "SESException"} ==>
              Lookup(CORE_MAP, Sub(name, Sub("ExternalServiceError", Sub("InfrastructureError", BaseCustomError)))) == Some(502)
    ensures Lookup(CORE_MAP, Sub("ExternalServiceError", Sub("InfrastructureError", BaseCustomError))) == Some(502)
    ensures Lookup(CORE_MAP, Sub("OutboundURLNotAllowedError", Sub("InfrastructureError", BaseCustomError))) == Some(400)
    ensures Lookup(CORE_MAP, Sub("InactiveParentError", Sub("RepositoryError", BaseCustomError))) == Some(409)
    ensures Lookup(CORE_MAP, Sub("InvalidInputError", Sub("RepositoryError", BaseCustomError))) == Some(400)
  {
    hide Lookup, SpecificFirst;
    CoreMapIsSpecificFirst();
    forall i | 0 <= i < |CORE_MAP| ensures Lookup(CORE_MAP, CORE_MAP[i].cls) == Some(CORE_MAP[i].code) {
      RegisteredIsAnswered(CORE_MAP, i);
    }
    assert CORE_MAP[2].cls.name == "ExternalTimeoutError" && CORE_MAP[3].cls.name == "S3Exception";
    assert CORE_MAP[4].cls.name == "SESException" && CORE_MAP[0].code == 404 && CORE_MAP[1].code == 503;
    assert CORE_MAP[5].code == 502 && CORE_MAP[6].code == 400 && CORE_MAP[7].code == 409 && CORE_MAP[8].code == 400;
  }

  /** An S3 error without an entry of its own is answered as its parent; the base classes have no entry at all. */
  lemma CoreMapAnswers()
    ensures Lookup(CORE_MAP, Sub("S3NotFoundError", Sub("S3Exception", EXTERNAL_SERVICE_ERROR))) == Some(502)
    ensures Lookup(CORE_MAP, INFRASTRUCTURE_ERROR) == None && Lookup(CORE_MAP, REPOSITORY_ERROR) == None
  {
    hide Lookup, IsInstance;
    var s3 := Sub("S3Exception", EXTERNAL_SERVICE_ERROR);
    assert forall k :: 0 <= k < |CORE_MAP| ==> CORE_MAP[k].cls != Sub("S3NotFoundError", s3);
    S3IsFourth();
    SubclassIsAnsweredAsParent(CORE_MAP, "S3NotFoundError", s3);
    BasesAreNotInstances();
    LookupIsFirstHit(CORE_MAP, INFRASTRUCTURE_ERROR, 0);
    LookupIsFirstHit(CORE_MAP, REPOSITORY_ERROR, 0);
  }

  lemma S3IsFourth()
    ensures Lookup(CORE_MAP, Sub("S3Exception", EXTERNAL_SERVICE_ERROR)) == Some(502)
  {
    hide Lookup;
    LookupIsFirstHit(CORE_MAP, Sub("S3Exception", EXTERNAL_SERVICE_ERROR), 3);
  }

  /** A class is no instance of one that is further down than itself. */
  lemma BasesAreNotInstances()
    ensures forall k :: 0 <= k < |CORE_MAP| ==>
              !IsInstance(INFRASTRUCTURE_ERROR, CORE_MAP[k].cls) && !IsInstance(REPOSITORY_ERROR, CORE_MAP[k].cls)
  {
    assert Depth(INFRASTRUCTURE_ERROR) == 1 && Depth(REPOSITORY_ERROR) == 1;
    forall k | 0 <= k < |CORE_MAP|
      ensures !IsInstance(INFRASTRUCTURE_ERROR, CORE_MAP[k].cls) && !IsInstance(REPOSITORY_ERROR, CORE_MAP[k].cls)
    {
      CoreDepths(k);
      hide IsInstance;
      SmallerIsNoInstance(INFRASTRUCTURE_ERROR, CORE_MAP[k].cls);
      SmallerIsNoInstance(REPOSITORY_ERROR, CORE_MAP[k].cls);
    }
  }

  lemma SmallerIsNoInstance(a: Class, b: Class)
    ensures Depth(a) < Depth(b) ==> !IsInstance(a, b)
  {
    if IsInstance(a, b) {
      AncestorIsSmaller(a, b);
    }
  }

  lemma CoreDepths(i: nat)
    requires i < |CORE_MAP|
    ensures Depth(CORE_MAP[i].cls) == if 2 <= i <= 4 then 3 else 2
  {
    assert Depth(INFRASTRUCTURE_ERROR) == 1 && Depth(REPOSITORY_ERROR) == 1;
    assert Depth(EXTERNAL_SERVICE_ERROR) == 2;
  }

  // ---------------------------------------------------------------- the cached map

  /** Where a thread stands; `floor` is how many registrations had finished when its read began. */
  datatype Pc =
    | Idle
    | Reading(floor: nat)                                          // before the lock-free read
    | Waiting(floor: nat)                                          // the cache was None; wants the lock
    | Checking(floor: nat)                                         // holds the lock, before the second test
    | Building(floor: nat)                                         // before `tuple(builder)`
    | Saving(floor: nat, built: seq<Mapping>)                      // before the cache is assigned
    | Fetching(floor: nat)                                         // before `return` reads the cache
    | Unlocking(floor: nat, result: Option<seq<Mapping>>)
    | Returned(floor: nat, result: Option<seq<Mapping>>)
    | Registering(entry: Mapping)                                  // wants the lock
    | Appending(entry: Mapping)
    | Invalidating
    | Unregistering                                                // before the lock is released

  datatype State = State(
    builder: seq<Mapping>,
    cache: Option<seq<Mapping>>,
    lock: Option<int>,
    threads: map<int, Pc>,
    finished: nat)   // registrations that have returned

  datatype Step =
    | BeginRead(p: int) | FastRead(p: int) | LockToRead(p: int) | Check(p: int) | Build(p: int) | Save(p: int)
    | Fetch(p: int) | UnlockRead(p: int) | EndRead(p: int)
    | BeginRegister(p: int, entry: Mapping) | LockToRegister(p: int) | Append(p: int) | Invalidate(p: int) | EndRegister(p: int)

  predicate Enabled(s: State, step: Step) {
    && step.p in s.threads
    && var pc := s.threads[step.p];
       match step
       case BeginRead(_) => pc.Idle?
       case FastRead(_) => pc.Reading?
       case LockToRead(_) => pc.Waiting? && s.lock.None?
       case Check(_) => pc.Checking?
       case Build(_) => pc.Building?
       case Save(_) => pc.Saving?
       case Fetch(_) => pc.Fetching?
       case UnlockRead(_) => pc.Unlocking?
       case EndRead(_) => pc.Returned?
       case BeginRegister(_, _) => pc.Idle?
       case LockToRegister(_) => pc.Registering? && s.lock.None?
       case Append(_) => pc.Appending?
       case Invalidate(_) => pc.Invalidating?
       case EndRegister(_) => pc.Unregistering?
  }

  function Move(s: State, p: int, to: Pc): State {
    s.(threads := s.threads[p := to])
  }

  function Next(s: State, step: Step): State
    requires Enabled(s, step)
  {
    var p, pc := step.p, s.threads[step.p];
    match step
    case BeginRead(_) => Move(s, p, Reading(s.finished))
    case FastRead(_) => Move(s, p, if s.cache.Some? then Returned(pc.floor, s.cache) else Waiting(pc.floor))
    case LockToRead(_) => Move(s, p, Checking(pc.floor)).(lock := Some(p))
    case Check(_) => Move(s, p, if s.cache.None? then Building(pc.floor) else Fetching(pc.floor))
    case Build(_) => Move(s, p, Saving(pc.floor, s.builder))
    case Save(_) => Move(s, p, Fetching(pc.floor)).(cache := Some(pc.built))
    case Fetch(_) => Move(s, p, Unlocking(pc.floor, s.cache))
    case UnlockRead(_) => Move(s, p, Returned(pc.floor, pc.result)).(lock := None)
    case EndRead(_) => Move(s, p, Idle)
    case BeginRegister(_, entry) => Move(s, p, Registering(entry))
    case LockToRegister(_) => Move(s, p, Appending(pc.entry)).(lock := Some(p))
    case Append(_) => Move(s, p, Invalidating).(builder := s.builder + [pc.entry])
    case Invalidate(_) => Move(s, p, Unregistering).(cache := None)
    case EndRegister(_) => Move(s, p, Idle).(lock := None, finished := s.finished + 1)
  }

  ghost predicate Runs(s: State, steps: seq<Step>, t: State)
    decreases |steps|
  {
    if steps == [] then s == t
    else Enabled(s, steps[0]) && Runs(Next(s, steps[0]), steps[1..], t)
  }

  function Init(pids: set<int>): State {
    State([], None, None, map p | p in pids :: Idle, 0)
  }

  predicate HoldsLock(pc: Pc) {
    pc.Checking? || pc.Building? || pc.Saving? || pc.Fetching? || pc.Unlocking?
    || pc.Appending? || pc.Invalidating? || pc.Unregistering?
  }

  predicate Pending(pc: Pc) {
    pc.Invalidating? || pc.Unregistering?
  }

  /** Between an append and its invalidation the cache may miss exactly the last entry. */
  ghost predicate CacheAgrees(s: State) {
    s.cache.Some? ==>
      if s.lock.Some? && s.lock.value in s.threads && s.threads[s.lock.value].Invalidating?
      then s.builder != [] && s.cache.value == s.builder[..|s.builder| - 1]
      else s.cache.value == s.builder
  }

  ghost predicate LockInv(s: State) {
    && (forall p :: p in s.threads && HoldsLock(s.threads[p]) ==> s.lock == Some(p))
    && (s.lock.Some? ==> s.lock.value in s.threads && HoldsLock(s.threads[s.lock.value]))
    && s.finished + (if s.lock.Some? && Pending(s.threads[s.lock.value]) then 1 else 0) == |s.builder|
    && CacheAgrees(s)
  }

  /** What a thread knows, given the builder, the cache and the number of finished registrations. */
  ghost predicate Knows(s: State, pc: Pc) {
    match pc
    case Reading(floor) => floor <= s.finished
    case Waiting(floor) => floor <= s.finished
    case Checking(floor) => floor <= s.finished
    case Building(floor) => floor <= s.finished
    case Saving(floor, built) => floor <= s.finished && built == s.builder
    case Fetching(floor) => floor <= s.finished && s.cache.Some?
    case Unlocking(floor, result) => Good(s, floor, result)
    case Returned(floor, result) => Good(s, floor, result)
    case _ => true
  }

  /** A result is a prefix of the builder that has every registration finished before the read began. */
  ghost predicate Good(s: State, floor: nat, result: Option<seq<Mapping>>) {
    result.Some? && floor <= |result.value| && result.value <= s.builder
  }

  ghost predicate Inv(s: State) {
    && LockInv(s)
    && forall p :: p in s.threads ==> Knows(s, s.threads[p])
  }

  lemma StepKeepsLockInv(s: State, step: Step)
    requires Inv(s) && Enabled(s, step)
    ensures LockInv(Next(s, step))
  {
    var pc := s.threads[step.p];
    assert Knows(s, pc);
    match step
    case Append(_) => assert Next(s, step).builder[..|s.builder|] == s.builder;
    case _ =>
  }

  lemma OwnKnowledge(s: State, step: Step)
    requires Inv(s) && Enabled(s, step)
    ensures Knows(Next(s, step), Next(s, step).threads[step.p])
  {
    assert Knows(s, s.threads[step.p]);
    match step
    case FastRead(_) => if s.cache.Some? { assert s.finished <= |s.cache.value| && s.cache.value <= s.builder; }
    case Fetch(_) => assert s.lock == Some(step.p) && s.cache.value == s.builder;
    case _ =>
  }

  /** What another thread knows survives: the builder and the count only grow, and the rest is behind the lock. */
  lemma OthersKnowledge(s: State, step: Step, q: int)
    requires Inv(s) && Enabled(s, step) && q in s.threads && q != step.p
    ensures Knows(Next(s, step), Next(s, step).threads[q])
  {
    var t, pc := Next(s, step), s.threads[q];
    assert Knows(s, pc) && t.threads[q] == pc;
    assert s.builder <= t.builder && s.finished <= t.finished;
    if HoldsLock(pc) {
      assert s.lock == Some(q) && !HoldsLock(s.threads[step.p]);
      assert t.builder == s.builder && t.cache == s.cache;
    }
  }

  lemma StepKeepsInv(s: State, step: Step)
    requires Inv(s) && Enabled(s, step)
    ensures Inv(Next(s, step))
  {
    StepKeepsLockInv(s, step);
    OwnKnowledge(s, step);
    hide Knows, LockInv;
    forall q | q in Next(s, step).threads ensures Knows(Next(s, step), Next(s, step).threads[q]) {
      if q != step.p { OthersKnowledge(s, step, q); }
    }
  }

  lemma {:induction false} RunKeepsInv(s: State, steps: seq<Step>, t: State)
    requires Inv(s) && Runs(s, steps, t)
    ensures Inv(t)
    decreases |steps|
  {
    if steps != [] {
      StepKeepsInv(s, steps[0]);
      RunKeepsInv(Next(s, steps[0]), steps[1..], t);
    }
  }

  /**
   Under every interleaving of readers and registrars, whenever the lock is free the cache is empty or equals the
   list, and each read returns a prefix of the list with every registration that finished before the read began.
   */
  lemma ReadsRefineTheList(pids: set<int>, steps: seq<Step>, t: State)
    requires Runs(Init(pids), steps, t)
    ensures t.lock.None? ==> t.cache.None? || t.cache.value == t.builder
    ensures forall p :: p in t.threads && t.threads[p].Returned? ==>
              var r := t.threads[p]; r.result.Some? && r.floor <= |r.result.value| && r.result.value <= t.builder
  {
    RunKeepsInv(Init(pids), steps, t);
    forall p | p in t.threads && t.threads[p].Returned?
      ensures Good(t, t.threads[p].floor, t.threads[p].result)
    {
      assert Knows(t, t.threads[p]);
    }
  }

  /**
   So the handler is never stale for an exception that some registration finished before the call resolves:
   the table it got and the whole list give the same status.
   */
  lemma HandlerIsNotStale(pids: set<int>, steps: seq<Step>, t: State, p: int, e: Class)
    requires Runs(Init(pids), steps, t) && p in t.threads && t.threads[p].Returned?
    requires var floor := t.threads[p].floor; floor <= |t.builder| && Lookup(t.builder[..floor], e).Some?
    ensures t.threads[p].result.Some? && Lookup(t.threads[p].result.value, e) == Lookup(t.builder, e)
  {
    ReadsRefineTheList(pids, steps, t);
    var floor, got := t.threads[p].floor, t.threads[p].result.value;
    ResolvedStays(t.builder[..floor], got[floor..], e);
    ResolvedStays(t.builder[..floor], t.builder[floor..], e);
    assert t.builder[..floor] + got[floor..] == got;
    assert t.builder[..floor] + t.builder[floor..] == t.builder;
  }

  // ---------------------------------------------------------------- what a finished call has done

  /** Thread `p` is busy all the way along this run, and idle again at its end. */
  ghost predicate BusyTo(s: State, steps: seq<Step>, p: int)
    decreases |steps|
  {
    p in s.threads
    && if steps == [] then s.threads[p].Idle?
       else !s.threads[p].Idle? && Enabled(s, steps[0]) && BusyTo(Next(s, steps[0]), steps[1..], p)
  }

  /** On its way to registering `entry`, or past it. */
  predicate Brings(pc: Pc, entry: Mapping) {
    (pc.Registering? || pc.Appending?) && pc.entry == entry
  }

  predicate HasBrought(pc: Pc) {
    pc.Invalidating? || pc.Unregistering? || pc.Idle?
  }

  /** On its way to a copy of the list that has the first `floor` registrations, or back with one. */
  predicate Fetches(pc: Pc, floor: nat) {
    (pc.Reading? || pc.Waiting? || pc.Checking? || pc.Building? || pc.Saving? || pc.Fetching? || pc.Unlocking?) && pc.floor == floor
  }

  lemma CallSteps(s: State, step: Step)
    requires Enabled(s, step)
    ensures var pc, t, p := s.threads[step.p], Next(s, step), step.p;
            && p in t.threads && s.builder <= t.builder
            && (forall entry :: Brings(pc, entry) ==>
                  Brings(t.threads[p], entry) || (t.builder == s.builder + [entry] && HasBrought(t.threads[p])))
            && (forall floor :: Fetches(pc, floor) ==>
                  Fetches(t.threads[p], floor) || (t.threads[p].Returned? && t.threads[p].floor == floor))
            && (forall q :: q in s.threads && q != p ==> q in t.threads && t.threads[q] == s.threads[q])
  {
  }

  lemma CallsBegin(s: State, p: int, entry: Mapping)
    ensures Enabled(s, BeginRegister(p, entry)) ==>
              Next(s, BeginRegister(p, entry)) == s.(threads := s.threads[p := Registering(entry)])
    ensures Enabled(s, BeginRead(p)) ==> Next(s, BeginRead(p)) == s.(threads := s.threads[p := Reading(s.finished)])
  {
  }

  lemma {:induction false} ListGrows(s: State, steps: seq<Step>, t: State)
    requires Runs(s, steps, t)
    ensures s.builder <= t.builder
    decreases |steps|
  {
    if steps != [] {
      hide Next, Enabled;
      CallSteps(s, steps[0]);
      ListGrows(Next(s, steps[0]), steps[1..], t);
    }
  }

  lemma {:induction false} BroughtInTheEnd(s: State, steps: seq<Step>, t: State, p: int, entry: Mapping)
    requires Runs(s, steps, t) && BusyTo(s, steps, p) && Brings(s.threads[p], entry)
    ensures exists k :: |s.builder| <= k < |t.builder| && t.builder[k] == entry
    decreases |steps|
  {
    hide Next, Enabled;
    var u := Next(s, steps[0]);
    CallSteps(s, steps[0]);
    if Brings(u.threads[p], entry) {
      BroughtInTheEnd(u, steps[1..], t, p, entry);
    } else {
      ListGrows(u, steps[1..], t);
      assert u.builder[|s.builder|] == entry;
    }
  }

  /** A finished `register_exception_mapping(exc_class, code)` has put its entry on the list, behind what was there when it began. */
  lemma RegisterTakesEffect(s: State, p: int, entry: Mapping, during: seq<Step>, t: State)
    requires Enabled(s, BeginRegister(p, entry))
    requires var begun := Next(s, BeginRegister(p, entry)); Runs(begun, during, t) && BusyTo(begun, during, p)
    ensures exists k :: |s.builder| <= k < |t.builder| && t.builder[k] == entry
  {
    hide Next, Enabled;
    CallsBegin(s, p, entry);
    BroughtInTheEnd(Next(s, BeginRegister(p, entry)), during, t, p, entry);
  }

  lemma {:induction false} FetchedOnTheWay(s: State, steps: seq<Step>, t: State, p: int, floor: nat)
    returns (a: seq<Step>, back: State, b: seq<Step>)
    requires Runs(s, steps, t) && BusyTo(s, steps, p) && Fetches(s.threads[p], floor)
    ensures steps == a + b && Runs(s, a, back) && Runs(back, b, t)
    ensures p in back.threads && back.threads[p].Returned? && back.threads[p].floor == floor
    decreases |steps|
  {
    hide Next, Enabled;
    var step, u := steps[0], Next(s, steps[0]);
    CallSteps(s, step);
    assert steps == [step] + steps[1..];
    if Fetches(u.threads[p], floor) {
      a, back, b := FetchedOnTheWay(u, steps[1..], t, p, floor);
      assert ([step] + a)[1..] == a;
      a := [step] + a;
    } else {
      a, back, b := [step], u, steps[1..];
      assert [step][1..] == [];
    }
  }

  /**
   A finished `_get_status_map()` has returned: at some moment it was back with a copy that is a prefix of the list and has
   every registration that had finished when the call began.
   */
  lemma ReadTakesEffect(pids: set<int>, before: seq<Step>, s: State, p: int, during: seq<Step>, t: State)
    returns (a: seq<Step>, back: State, b: seq<Step>)
    requires Runs(Init(pids), before, s) && Enabled(s, BeginRead(p))
    requires var begun := Next(s, BeginRead(p)); Runs(begun, during, t) && BusyTo(begun, during, p)
    ensures during == a + b && Runs(Next(s, BeginRead(p)), a, back) && Runs(back, b, t)
    ensures p in back.threads && back.threads[p].Returned? && back.threads[p].result.Some?
    ensures s.finished <= |back.threads[p].result.value| && back.threads[p].result.value <= back.builder
  {
    hide Next, Enabled, LockInv, Knows;
    CallsBegin(s, p, Mapping(BaseCustomError, 0));
    var begun := Next(s, BeginRead(p));
    a, back, b := FetchedOnTheWay(begun, during, t, p, s.finished);
    InitKeepsInv(pids);
    RunKeepsInv(Init(pids), before, s);
    StepKeepsInv(s, BeginRead(p));
    RunKeepsInv(begun, a, back);
    ReturnedIsGood(back, p);
  }

  lemma InitKeepsInv(pids: set<int>)
    ensures Inv(Init(pids))
  {
  }

  lemma ReturnedIsGood(s: State, p: int)
    requires Inv(s) && p in s.threads && s.threads[p].Returned?
    ensures Good(s, s.threads[p].floor, s.threads[p].result)
  {
    assert Knows(s, s.threads[p]);
  }

  /** The step by which a thread goes on. */
  function Onward(pc: Pc, p: int): Step {
    match pc
    case Idle => BeginRead(p)
    case Reading(_) => FastRead(p)
    case Waiting(_) => LockToRead(p)
    case Checking(_) => Check(p)
    case Building(_) => Build(p)
    case Saving(_, _) => Save(p)
    case Fetching(_) => Fetch(p)
    case Unlocking(_, _) => UnlockRead(p)
    case Returned(_, _) => EndRead(p)
    case Registering(_) => LockToRegister(p)
    case Appending(_) => Append(p)
    case Invalidating => Invalidate(p)
    case Unregistering => EndRegister(p)
  }

  /** How far a call is from its end. */
  function Stage(pc: Pc): nat {
    match pc
    case Idle => 0
    case Returned(_, _) => 1
    case Unlocking(_, _) => 2
    case Fetching(_) => 3
    case Saving(_, _) => 4
    case Building(_) => 5
    case Checking(_) => 6
    case Waiting(_) => 7
    case Reading(_) => 8
    case Unregistering => 1
    case Invalidating => 2
    case Appending(_) => 3
    case Registering(_) => 4
  }

  lemma OnwardGoesDown(s: State, p: int)
    requires LockInv(s) && p in s.threads && !s.threads[p].Idle? && (s.lock.None? || s.lock == Some(p))
    ensures var step := Onward(s.threads[p], p);
            && Enabled(s, step)
            && var t := Next(s, step);
               && t.threads == s.threads[p := t.threads[p]] && Stage(t.threads[p]) < Stage(s.threads[p])
               && (t.lock.None? || t.lock == Some(p))
  {
  }

  /** A thread that can have the lock ends its call without any other thread moving, and leaves the lock free. */
  lemma {:induction false} FinishesAlone(s: State, p: int) returns (steps: seq<Step>, t: State)
    requires Inv(s) && p in s.threads && (s.lock.None? || s.lock == Some(p))
    ensures Runs(s, steps, t) && Inv(t) && p in t.threads && t.threads[p].Idle? && t.lock.None?
    ensures t.threads.Keys == s.threads.Keys && forall q :: q in s.threads && q != p ==> t.threads[q] == s.threads[q]
    decreases Stage(s.threads[p])
  {
    hide Enabled, Next, Onward, Knows, Stage;
    if s.threads[p].Idle? {
      steps, t := [], s;
    } else {
      var step := Onward(s.threads[p], p);
      OnwardGoesDown(s, p);
      StepKeepsInv(s, step);
      hide Inv;
      var rest;
      rest, t := FinishesAlone(Next(s, step), p);
      steps := [step] + rest;
      assert steps[1..] == rest;
    }
  }

  lemma {:induction false} RunsOn(s: State, a: seq<Step>, t: State, b: seq<Step>, u: State)
    requires Runs(s, a, t) && Runs(t, b, u)
    ensures Runs(s, a + b, u)
    decreases |a|
  {
    hide Next, Enabled;
    if a == [] {
      assert a + b == b;
    } else {
      RunsOn(Next(s, a[0]), a[1..], t, b, u);
      assert (a + b)[1..] == a[1..] + b;
    }
  }

  /** What a run that lets threads finish leaves: a free lock, the same threads, and those idle that were idle. */
  ghost predicate Settles(s: State, t: State) {
    && Inv(t) && t.lock.None? && t.threads.Keys == s.threads.Keys
    && forall q :: q in s.threads && s.threads[q].Idle? ==> t.threads[q].Idle?
  }

  lemma {:induction false} AllFinish(s: State, ids: seq<int>) returns (steps: seq<Step>, t: State)
    requires Inv(s) && s.lock.None? && forall k :: 0 <= k < |ids| ==> ids[k] in s.threads
    ensures Runs(s, steps, t) && Settles(s, t)
    ensures forall k :: 0 <= k < |ids| ==> t.threads[ids[k]].Idle?
    decreases |ids|
  {
    hide Enabled, Next, Inv;
    if ids == [] {
      steps, t := [], s;
    } else {
      var a, u := FinishesAlone(s, ids[0]);
      var b;
      b, t := AllFinish(u, ids[1..]);
      RunsOn(s, a, u, b, t);
      steps := a + b;
      forall k | 0 <= k < |ids| ensures t.threads[ids[k]].Idle? {
        assert k > 0 ==> ids[k] == ids[1..][k - 1];
      }
    }
  }

  lemma HolderIsThread(s: State)
    requires Inv(s) && s.lock.Some?
    ensures s.lock.value in s.threads
  {
  }

  /** From every reachable state all calls can come to their end, one after the other. */
  lemma EveryCallCanEnd(pids: set<int>, before: seq<Step>, s: State, ids: seq<int>) returns (steps: seq<Step>, t: State)
    requires Runs(Init(pids), before, s) && forall k :: 0 <= k < |ids| ==> ids[k] in s.threads
    ensures Runs(s, steps, t) && Settles(s, t)
    ensures forall k :: 0 <= k < |ids| ==> t.threads[ids[k]].Idle?
  {
    hide Enabled, Next, Inv;
    InitKeepsInv(pids);
    RunKeepsInv(Init(pids), before, s);
    if s.lock.Some? {
      HolderIsThread(s);
      var a, u := FinishesAlone(s, s.lock.value);
      var b;
      b, t := AllFinish(u, ids);
      RunsOn(s, a, u, b, t);
      steps := a + b;
    } else {
      steps, t := AllFinish(s, ids);
    }
  }
}
