/**
 The engine cache of `core.utils.db`: a lock-free fast path in front of a dictionary, a second dictionary of
 masked URLs kept beside it, and disposal of removed engines outside the lock. Steps are atomic statements of any
 number of threads. A URL stands for its cache key, so distinct URLs have distinct keys.
 */
module EngineCache {
  import opened Wrappers

  type Url = string

  datatype Pc =
    | Idle
    // get_engine
    | Looking(url: Url)                    // before the lock-free `get`
    | Waiting(url: Url)
    | Checking(url: Url)                   // holds the lock, before `key not in _engine_cache`
    | Masking(url: Url)                    // before `_mask_url`, which raises on a malformed URL
    | Creating(url: Url)                   // before `create_engine`, which may raise
    | Recording(url: Url)                  // engine stored, masked URL not yet
    | Fetching(url: Url)                   // before `return _engine_cache[key]`
    | Releasing(url: Url, engine: nat)
    | Got(url: Url, engine: nat)
    // dispose_engine
    | WaitingToPop(url: Url)
    | Popping(url: Url)
    | PoppingUrl(url: Url, pending: seq<nat>)
    // dispose_all_engines
    | WaitingToClear
    | Clearing
    | ClearingUrls(pending: seq<nat>)
    // leaving the lock and disposing what was removed
    | Unlocking(pending: seq<nat>)
    | Disposing(pending: seq<nat>)
    | Raising                              // an exception is about to leave the lock

  /**
   Where an engine is. Every engine ever created is in exactly one place: in the cache, removed and held by a thread that
   is to dispose it, disposed with a `dispose()` that returned or raised, or removed and given up before `dispose()`.
   */
  datatype Place = Cached(url: Url) | Held(p: int) | Called(raised: bool) | Skipped

  datatype State = State(
    wellFormed: Url -> bool,
    cache: map<Url, nat>,
    masked: set<Url>,          // the keys of `_url_for_log`
    lock: Option<int>,
    threads: map<int, Pc>,
    created: nat,              // engines are numbered in order of creation
    called: seq<nat>,          // the engines of all `dispose()` calls, in order
    places: map<nat, Place>)   // history

  datatype Step =
    | BeginGet(p: int, url: Url) | FastGet(p: int) | LockToGet(p: int) | Check(p: int) | Mask(p: int) | Create(p: int)
    | CreateFails(p: int) | Record(p: int) | Fetch(p: int) | Release(p: int) | EndGet(p: int)
    | BeginDispose(p: int, url: Url) | LockToPop(p: int) | Pop(p: int) | PopUrl(p: int)
    | BeginClear(p: int) | LockToClear(p: int) | Clear(p: int, order: seq<nat>) | ClearUrls(p: int)
    | Unlock(p: int) | DisposeOne(p: int) | DisposeRaises(p: int) | EndDispose(p: int) | Propagate(p: int)

  function Pending(pc: Pc): seq<nat> {
    match pc
    case PoppingUrl(_, pending) => pending
    case ClearingUrls(pending) => pending
    case Unlocking(pending) => pending
    case Disposing(pending) => pending
    case _ => []
  }

  predicate Distinct(list: seq<nat>) {
    forall i, j :: 0 <= i < j < |list| ==> list[i] != list[j]
  }

  /** `order` lists the cached engines, each once. */
  predicate ListsCache(s: State, order: seq<nat>) {
    && Distinct(order)
    && (forall u :: u in s.cache ==> s.cache[u] in order)
    && (forall e :: e in order ==> e in s.cache.Values)
  }

  predicate Enabled(s: State, step: Step) {
    && step.p in s.threads
    && var pc := s.threads[step.p];
       match step
       case BeginGet(_, _) => pc.Idle?
       case FastGet(_) => pc.Looking?
       case LockToGet(_) => pc.Waiting? && s.lock.None?
       case Check(_) => pc.Checking?
       case Mask(_) => pc.Masking?
       case Create(_) => pc.Creating?
       case CreateFails(_) => pc.Creating?
       case Record(_) => pc.Recording?
       case Fetch(_) => pc.Fetching? && pc.url in s.cache
       case Release(_) => pc.Releasing?
       case EndGet(_) => pc.Got?
       case BeginDispose(_, _) => pc.Idle?
       case LockToPop(_) => pc.WaitingToPop? && s.lock.None?
       case Pop(_) => pc.Popping?
       case PopUrl(_) => pc.PoppingUrl?
       case BeginClear(_) => pc.Idle?
       case LockToClear(_) => pc.WaitingToClear? && s.lock.None?
       case Clear(_, order) => pc.Clearing? && ListsCache(s, order)
       case ClearUrls(_) => pc.ClearingUrls?
       case Unlock(_) => pc.Unlocking?
       case DisposeOne(_) => pc.Disposing? && pc.pending != []
       case DisposeRaises(_) => pc.Disposing? && pc.pending != []
       case EndDispose(_) => pc.Disposing? && pc.pending == []
       case Propagate(_) => pc.Raising?
  }

  function Move(s: State, p: int, to: Pc): State {
    s.(threads := s.threads[p := to])
  }

  function Relocate(places: map<nat, Place>, engines: seq<nat>, to: Place): map<nat, Place> {
    places + map e | e in engines :: to
  }

  /** The first `dispose()` of a list raises: the loop ends there. */
  function AfterRaise(places: map<nat, Place>, pending: seq<nat>): map<nat, Place>
    requires pending != []
  {
    Relocate(places[pending[0] := Called(true)], pending[1..], Skipped)
  }

  function Next(s: State, step: Step): State
    requires Enabled(s, step)
  {
    var p, pc := step.p, s.threads[step.p];
    match step
    case BeginGet(_, url) => Move(s, p, Looking(url))
    case FastGet(_) => Move(s, p, if pc.url in s.cache then Got(pc.url, s.cache[pc.url]) else Waiting(pc.url))
    case LockToGet(_) => Move(s, p, Checking(pc.url)).(lock := Some(p))
    case Check(_) => Move(s, p, if pc.url !in s.cache then Masking(pc.url) else Fetching(pc.url))
    case Mask(_) => Move(s, p, if s.wellFormed(pc.url) then Creating(pc.url) else Raising)
    case Create(_) =>
      Move(s, p, Recording(pc.url)).(
        cache := s.cache[pc.url := s.created], created := s.created + 1, places := s.places[s.created := Cached(pc.url)])
    case CreateFails(_) => Move(s, p, Raising)
    case Record(_) => Move(s, p, Fetching(pc.url)).(masked := s.masked + {pc.url})
    case Fetch(_) => Move(s, p, Releasing(pc.url, s.cache[pc.url]))
    case Release(_) => Move(s, p, Got(pc.url, pc.engine)).(lock := None)
    case EndGet(_) => Move(s, p, Idle)
    case BeginDispose(_, url) => Move(s, p, WaitingToPop(url))
    case LockToPop(_) => Move(s, p, Popping(pc.url)).(lock := Some(p))
    case Pop(_) =>
      if pc.url in s.cache then
        var e := s.cache[pc.url];
        Move(s, p, PoppingUrl(pc.url, [e])).(cache := s.cache - {pc.url}, places := s.places[e := Held(p)])
      else Move(s, p, PoppingUrl(pc.url, []))
    case PopUrl(_) =>
      // the default argument is evaluated first, so a malformed URL raises whether or not it was cached
      if s.wellFormed(pc.url) then Move(s, p, Unlocking(pc.pending)).(masked := s.masked - {pc.url})
      else Move(s, p, Raising).(places := Relocate(s.places, pc.pending, Skipped))
    case BeginClear(_) => Move(s, p, WaitingToClear)
    case LockToClear(_) => Move(s, p, Clearing).(lock := Some(p))
    case Clear(_, order) => Move(s, p, ClearingUrls(order)).(cache := map[], places := Relocate(s.places, order, Held(p)))
    case ClearUrls(_) => Move(s, p, Unlocking(pc.pending)).(masked := {})
    case Unlock(_) => Move(s, p, Disposing(pc.pending)).(lock := None)
    case DisposeOne(_) =>
      Move(s, p, Disposing(pc.pending[1..])).(
        called := s.called + [pc.pending[0]], places := s.places[pc.pending[0] := Called(false)])
    case DisposeRaises(_) =>
      Move(s, p, Idle).(
        called := s.called + [pc.pending[0]],
        places := AfterRaise(s.places, pc.pending))
    case EndDispose(_) => Move(s, p, Idle)
    case Propagate(_) => Move(s, p, Idle).(lock := None)
  }

  ghost predicate Runs(s: State, steps: seq<Step>, t: State)
    decreases |steps|
  {
    if steps == [] then s == t
    else Enabled(s, steps[0]) && Runs(Next(s, steps[0]), steps[1..], t)
  }

  function Init(wellFormed: Url -> bool, pids: set<int>): State {
    State(wellFormed, map[], {}, None, map p | p in pids :: Idle, 0, [], map[])
  }

  // ---------------------------------------------------------------- the two dictionaries

  predicate HoldsLock(pc: Pc) {
    pc.Checking? || pc.Masking? || pc.Creating? || pc.Recording? || pc.Fetching? || pc.Releasing?
    || pc.Popping? || pc.PoppingUrl? || pc.Clearing? || pc.ClearingUrls? || pc.Unlocking? || pc.Raising?
  }

  ghost predicate Exclusive(s: State) {
    && (forall p :: p in s.threads && HoldsLock(s.threads[p]) ==> s.lock == Some(p))
    && (s.lock.Some? ==> s.lock.value in s.threads && HoldsLock(s.threads[s.lock.value]))
  }

  /** What the lock holder knows of the dictionaries; with no holder they have the same keys. */
  ghost predicate KeysAgree(s: State) {
    && (forall u :: u in s.cache ==> s.wellFormed(u))
    && if s.lock.None? || s.lock.value !in s.threads then s.cache.Keys == s.masked
       else
         match s.threads[s.lock.value]
         case Masking(u) => s.cache.Keys == s.masked && u !in s.cache
         case Creating(u) => s.cache.Keys == s.masked && u !in s.cache && s.wellFormed(u)
         case Recording(u) => s.cache.Keys == s.masked + {u}
         case Fetching(u) => s.cache.Keys == s.masked && u in s.cache
         case PoppingUrl(u, pending) =>
           s.cache.Keys == s.masked - {u} && (!s.wellFormed(u) ==> pending == [] && u !in s.masked)
         case ClearingUrls(_) => s.cache == map[]
         case _ => s.cache.Keys == s.masked
  }

  /** How a step may treat its thread and the lock: take it, give it up, or leave it. */
  predicate LocksProperly(s: State, t: State, p: int) {
    && p in s.threads && p in t.threads && t.threads == s.threads[p := t.threads[p]]
    && ((s.lock.None? && t.lock == Some(p) && HoldsLock(t.threads[p]))
        || (HoldsLock(s.threads[p]) && t.lock == None && !HoldsLock(t.threads[p]))
        || (t.lock == s.lock && HoldsLock(t.threads[p]) == HoldsLock(s.threads[p])))
  }

  lemma StepsLockProperly(s: State, step: Step)
    requires Enabled(s, step)
    ensures LocksProperly(s, Next(s, step), step.p)
  {
    if Getting(step) {
      GetStepsLockProperly(s, step);
    } else {
      RemovalStepsLockProperly(s, step);
    }
  }

  predicate Getting(step: Step) {
    step.BeginGet? || step.FastGet? || step.LockToGet? || step.Check? || step.Mask? || step.Create?
    || step.CreateFails? || step.Record? || step.Fetch? || step.Release? || step.EndGet?
  }

  lemma GetStepsLockProperly(s: State, step: Step)
    requires Enabled(s, step) && Getting(step)
    ensures LocksProperly(s, Next(s, step), step.p)
  {
  }

  lemma RemovalStepsLockProperly(s: State, step: Step)
    requires Enabled(s, step) && !Getting(step)
    ensures LocksProperly(s, Next(s, step), step.p)
  {
    hide Relocate, ListsCache;
  }

  lemma StepKeepsExclusive(s: State, step: Step)
    requires Exclusive(s) && Enabled(s, step)
    ensures Exclusive(Next(s, step))
  {
    hide Enabled, Next;
    StepsLockProperly(s, step);
  }

  /** Which steps may touch what the lock guards. */
  lemma OnlyHolderWrites(s: State, step: Step)
    requires Exclusive(s) && Enabled(s, step) && s.lock != Some(step.p) && Next(s, step).lock != Some(step.p)
    ensures var t := Next(s, step);
            && t.cache == s.cache && t.masked == s.masked && t.lock == s.lock && t.wellFormed == s.wellFormed
            && t.threads.Keys == s.threads.Keys
            && forall q :: q in s.threads && q != step.p ==> t.threads[q] == s.threads[q]
  {
    assert !HoldsLock(s.threads[step.p]);
  }

  lemma StepKeepsKeys(s: State, step: Step)
    requires Exclusive(s) && KeysAgree(s) && Enabled(s, step)
    ensures KeysAgree(Next(s, step))
  {
    assert step.p in s.threads;
    hide Next, Enabled;
    if s.lock != Some(step.p) && Next(s, step).lock != Some(step.p) {
      OnlyHolderWrites(s, step);
    } else if Removing(s.threads[step.p]) {
      RemoverKeepsKeys(s, step);
    } else {
      GetterKeepsKeys(s, step);
    }
  }

  predicate Removing(pc: Pc) {
    pc.WaitingToPop? || pc.Popping? || pc.PoppingUrl? || pc.WaitingToClear? || pc.Clearing? || pc.ClearingUrls? || pc.Unlocking?
  }

  lemma RemoverKeepsKeys(s: State, step: Step)
    requires Exclusive(s) && KeysAgree(s) && Enabled(s, step) && Removing(s.threads[step.p])
    requires s.lock == Some(step.p) || Next(s, step).lock == Some(step.p)
    ensures KeysAgree(Next(s, step))
  {
    if step.PopUrl? {
      PopUrlKeepsKeys(s, step);
    } else if step.Pop? || step.Clear? {
      RemovalKeepsKeys(s, step);
    } else {
      UnlockingKeepsKeys(s, step);
    }
  }

  lemma RemovalKeepsKeys(s: State, step: Step)
    requires Exclusive(s) && KeysAgree(s) && Enabled(s, step) && (step.Pop? || step.Clear?)
    ensures KeysAgree(Next(s, step))
  {
    if step.Pop? { PopShape(s, step); } else { ClearShape(s, step); }
    PopKeepsRest(s, step);
    hide Next, Enabled, ListsCache, Relocate;
    assert HoldsLock(s.threads[step.p]) && s.lock == Some(step.p);
    hide Exclusive;
  }

  lemma UnlockingKeepsKeys(s: State, step: Step)
    requires Exclusive(s) && KeysAgree(s) && Enabled(s, step) && Removing(s.threads[step.p])
    requires s.lock == Some(step.p) || Next(s, step).lock == Some(step.p)
    requires !step.PopUrl? && !step.Pop? && !step.Clear?
    ensures KeysAgree(Next(s, step))
  {
    assert step.LockToPop? || step.LockToClear? || step.ClearUrls? || step.Unlock?;
    hide Relocate, ListsCache;
  }

  lemma PopKeepsRest(s: State, step: Step)
    requires Enabled(s, step) && (step.Pop? || step.Clear?)
    ensures var t := Next(s, step); t.masked == s.masked && t.lock == s.lock && t.wellFormed == s.wellFormed
  {
    hide Relocate, ListsCache;
  }

  lemma PopUrlKeepsKeys(s: State, step: Step)
    requires Exclusive(s) && KeysAgree(s) && Enabled(s, step) && step.PopUrl? && s.lock == Some(step.p)
    ensures KeysAgree(Next(s, step))
  {
    hide Relocate;
    var url, t := s.threads[step.p].url, Next(s, step);
    assert s.cache.Keys == s.masked - {url} && t.cache == s.cache;
    assert t.cache.Keys == t.masked;
  }

  lemma GetterKeepsKeys(s: State, step: Step)
    requires Exclusive(s) && KeysAgree(s) && Enabled(s, step) && !Removing(s.threads[step.p])
    requires s.lock == Some(step.p) || Next(s, step).lock == Some(step.p)
    ensures KeysAgree(Next(s, step))
  {
    hide Relocate, ListsCache;
  }

  // ---------------------------------------------------------------- every engine in one place

  ghost predicate Numbered(places: map<nat, Place>, created: nat) {
    forall e: nat :: e in places <==> e < created
  }

  ghost predicate CachePlaced(places: map<nat, Place>, cache: map<Url, nat>) {
    && (forall u :: u in cache ==> cache[u] in places && places[cache[u]] == Cached(u))
    && (forall e :: e in places && places[e].Cached? ==> places[e].url in cache && cache[places[e].url] == e)
  }

  ghost predicate PendingPlaced(places: map<nat, Place>, threads: map<int, Pc>) {
    && (forall p :: p in threads ==> Distinct(Pending(threads[p])))
    && (forall p, e :: p in threads && e in Pending(threads[p]) ==> e in places && places[e] == Held(p))
    && (forall e :: e in places && places[e].Held? ==> places[e].p in threads && e in Pending(threads[places[e].p]))
  }

  ghost predicate CalledPlaced(places: map<nat, Place>, called: seq<nat>) {
    && Distinct(called)
    && (forall e :: e in called <==> e in places && places[e].Called?)
  }

  ghost predicate Placed(s: State) {
    && Numbered(s.places, s.created)
    && CachePlaced(s.places, s.cache)
    && PendingPlaced(s.places, s.threads)
    && CalledPlaced(s.places, s.called)
  }

  ghost predicate Inv(s: State) {
    Exclusive(s) && KeysAgree(s) && Placed(s)
  }

  /** A step that leaves the engines where they are. */
  lemma NothingMoves(s: State, t: State)
    requires Placed(s)
    requires t.created == s.created && t.cache == s.cache && t.called == s.called && t.places == s.places
    requires t.threads.Keys == s.threads.Keys
    requires forall q :: q in s.threads ==> Pending(t.threads[q]) == Pending(s.threads[q])
    ensures Placed(t)
  {
    assert PendingPlaced(t.places, t.threads) by {
      forall e | e in t.places && t.places[e].Held? ensures e in Pending(t.threads[t.places[e].p]) {
        var q := s.places[e].p;
        assert Pending(t.threads[q]) == Pending(s.threads[q]);
      }
      forall q, e | q in t.threads && e in Pending(t.threads[q]) ensures e in t.places && t.places[e] == Held(q) {
        assert Pending(t.threads[q]) == Pending(s.threads[q]);
      }
      forall q | q in t.threads ensures Distinct(Pending(t.threads[q])) {
        assert Pending(t.threads[q]) == Pending(s.threads[q]);
      }
    }
  }

  predicate MovesEngines(step: Step) {
    step.Create? || step.Pop? || step.Clear? || step.DisposeOne? || step.DisposeRaises?
  }

  lemma OtherStepsMoveNothing(s: State, step: Step)
    requires Exclusive(s) && KeysAgree(s) && Enabled(s, step) && !MovesEngines(step)
    ensures var t := Next(s, step);
            && t.created == s.created && t.cache == s.cache && t.called == s.called && t.places == s.places
            && t.threads.Keys == s.threads.Keys
            && forall q :: q in s.threads ==> Pending(t.threads[q]) == Pending(s.threads[q])
  {
    hide Next;
    StepsLockProperly(s, step);
    if step.PopUrl? {
      PopUrlMovesNothing(s, step);
    } else {
      PlainStepsMoveNothing(s, step);
    }
    hide Next, Enabled, KeysAgree, Exclusive;
    assert forall q :: q in s.threads && q != step.p ==> Next(s, step).threads[q] == s.threads[q];
  }

  lemma PlainStepsMoveNothing(s: State, step: Step)
    requires Enabled(s, step) && !MovesEngines(step) && !step.PopUrl?
    ensures var t := Next(s, step);
            && t.created == s.created && t.cache == s.cache && t.called == s.called && t.places == s.places
            && step.p in t.threads && Pending(t.threads[step.p]) == Pending(s.threads[step.p])
  {
  }

  lemma PopUrlMovesNothing(s: State, step: Step)
    requires Exclusive(s) && KeysAgree(s) && Enabled(s, step) && step.PopUrl?
    ensures var t := Next(s, step);
            && t.created == s.created && t.cache == s.cache && t.called == s.called && t.places == s.places
            && step.p in t.threads && Pending(t.threads[step.p]) == Pending(s.threads[step.p])
  {
    var pc := s.threads[step.p];
    assert s.lock == Some(step.p);
    if !s.wellFormed(pc.url) {
      assert pc.pending == [];
      assert Relocate(s.places, pc.pending, Skipped) == s.places;
    }
  }

  /** Relocating engines none of which was disposed or is put there leaves the disposed ones as they were. */
  lemma CalledUnaffected(places: map<nat, Place>, called: seq<nat>, engines: seq<nat>, to: Place)
    requires CalledPlaced(places, called) && !to.Called?
    requires forall e :: e in engines ==> e in places && !places[e].Called?
    ensures CalledPlaced(Relocate(places, engines, to), called)
  {
  }

  lemma CacheUnaffected(places: map<nat, Place>, cache: map<Url, nat>, engines: seq<nat>, to: Place)
    requires CachePlaced(places, cache) && !to.Cached?
    requires forall e :: e in engines ==> e in places && !places[e].Cached?
    ensures CachePlaced(Relocate(places, engines, to), cache)
  {
  }

  lemma NumbersUnaffected(places: map<nat, Place>, created: nat, engines: seq<nat>, to: Place)
    requires Numbered(places, created) && forall e :: e in engines ==> e in places
    ensures Numbered(Relocate(places, engines, to), created)
  {
  }

  lemma CreateKeepsPlaced(s: State, step: Step)
    requires Inv(s) && Enabled(s, step) && step.Create?
    ensures Placed(Next(s, step))
  {
    var t, url := Next(s, step), s.threads[step.p].url;
    assert s.lock == Some(step.p) && url !in s.cache && s.created !in s.places;
    PendingUnaffected(s.places, t.places, s.threads, t.threads, step.p);
  }

  /** Threads keep what they hold when one that holds nothing moves on and only other engines change place. */
  lemma PendingUnaffected(places: map<nat, Place>, places': map<nat, Place>, threads: map<int, Pc>, threads': map<int, Pc>, p: int)
    requires PendingPlaced(places, threads) && p in threads
    requires Pending(threads[p]) == [] && p in threads' && threads' == threads[p := threads'[p]] && Pending(threads'[p]) == []
    requires forall e :: e in places && places[e].Held? ==> e in places' && places'[e] == places[e]
    requires forall e :: e in places' && places'[e].Held? ==> e in places && places[e] == places'[e]
    ensures PendingPlaced(places', threads')
  {
  }

  /** Thread `p` takes hold of `engines`, none of which any thread held. */
  lemma TakeHold(places: map<nat, Place>, threads: map<int, Pc>, p: int, to: Pc, engines: seq<nat>)
    requires PendingPlaced(places, threads) && p in threads && Pending(threads[p]) == []
    requires Pending(to) == engines && Distinct(engines)
    requires forall e :: e in engines ==> e in places && !places[e].Held?
    ensures PendingPlaced(Relocate(places, engines, Held(p)), threads[p := to])
  {
    var places', threads' := Relocate(places, engines, Held(p)), threads[p := to];
    forall q, e | q in threads' && e in Pending(threads'[q]) ensures e in places' && places'[e] == Held(q) {
      if q != p { assert e in Pending(threads[q]); }
    }
    forall e | e in places' && places'[e].Held? ensures places'[e].p in threads' && e in Pending(threads'[places'[e].p]) {
      if e !in engines { assert places[e].Held? && e in Pending(threads[places[e].p]); }
    }
  }

  /** Thread `p` lets go of `gone`, keeping `kept`. */
  lemma LetGo(places: map<nat, Place>, threads: map<int, Pc>, p: int, to: Pc, gone: seq<nat>, kept: seq<nat>, where: Place)
    requires PendingPlaced(places, threads) && p in threads && Pending(threads[p]) == gone + kept
    requires Pending(to) == kept && !where.Held?
    ensures PendingPlaced(Relocate(places, gone, where), threads[p := to])
  {
    var places', threads' := Relocate(places, gone, where), threads[p := to];
    var held := gone + kept;
    assert Distinct(held);
    forall i, j | 0 <= i < j < |kept| ensures kept[i] != kept[j] {
      assert held[|gone| + i] == kept[i] && held[|gone| + j] == kept[j];
    }
    forall e | e in kept ensures e in held && e !in gone {
      var i :| 0 <= i < |kept| && kept[i] == e;
      assert held[|gone| + i] == e;
      forall j | 0 <= j < |gone| ensures gone[j] != e { assert held[j] == gone[j]; }
    }
    forall e | e in gone ensures e in places && places[e] == Held(p) {
      assert e in held;
    }
    forall q, e | q in threads' && e in Pending(threads'[q]) ensures e in places' && places'[e] == Held(q) {
      assert e in Pending(threads[q]);
    }
    forall e | e in places' && places'[e].Held? ensures places'[e].p in threads' && e in Pending(threads'[places'[e].p]) {
      assert e !in gone && e in Pending(threads[places[e].p]);
    }
  }

  lemma RelocateOne(places: map<nat, Place>, e: nat, to: Place)
    ensures Relocate(places, [e], to) == places[e := to]
  {
  }

  lemma PopShape(s: State, step: Step)
    requires Enabled(s, step) && step.Pop?
    ensures s.threads[step.p].Popping?
    ensures var t, p, url := Next(s, step), step.p, s.threads[step.p].url;
            && t.created == s.created && t.called == s.called
            && if url in s.cache then
                 var e := s.cache[url];
                 && t.cache == s.cache - {url} && t.places == s.places[e := Held(p)]
                 && t.threads == s.threads[p := PoppingUrl(url, [e])]
               else t.cache == s.cache && t.places == s.places && t.threads == s.threads[p := PoppingUrl(url, [])]
  {
  }

  lemma UncacheOne(places: map<nat, Place>, cache: map<Url, nat>, url: Url, to: Place)
    requires CachePlaced(places, cache) && url in cache && !to.Cached?
    ensures CachePlaced(places[cache[url] := to], cache - {url})
  {
  }

  lemma UncacheAll(places: map<nat, Place>, cache: map<Url, nat>, order: seq<nat>, to: Place)
    requires CachePlaced(places, cache) && !to.Cached?
    requires forall u :: u in cache ==> cache[u] in order
    ensures CachePlaced(Relocate(places, order, to), map[])
  {
    forall e | e in places && places[e].Cached? ensures e in order {
      assert cache[places[e].url] == e;
    }
  }

  lemma PopKeepsPlaced(s: State, step: Step)
    requires Placed(s) && Enabled(s, step) && step.Pop?
    ensures Placed(Next(s, step))
  {
    PopShape(s, step);
    var t, p, url := Next(s, step), step.p, s.threads[step.p].url;
    hide Next, Enabled;
    if url in s.cache {
      var e := s.cache[url];
      TakeHold(s.places, s.threads, p, PoppingUrl(url, [e]), [e]);
      RelocateOne(s.places, e, Held(p));
      CalledUnaffected(s.places, s.called, [e], Held(p));
      NumbersUnaffected(s.places, s.created, [e], Held(p));
      UncacheOne(s.places, s.cache, url, Held(p));
      hide PendingPlaced, CalledPlaced, CachePlaced, Numbered, Relocate;
    } else {
      NothingMoves(s, t);
    }
  }

  lemma ClearShape(s: State, step: Step)
    requires Enabled(s, step) && step.Clear?
    ensures s.threads[step.p].Clearing? && ListsCache(s, step.order)
    ensures var t, p := Next(s, step), step.p;
            && t.created == s.created && t.called == s.called && t.cache == map[]
            && t.places == Relocate(s.places, step.order, Held(p))
            && t.threads == s.threads[p := ClearingUrls(step.order)]
  {
    hide ListsCache, Relocate;
  }

  lemma ClearKeepsPlaced(s: State, step: Step)
    requires Placed(s) && Enabled(s, step) && step.Clear?
    ensures Placed(Next(s, step))
  {
    ClearShape(s, step);
    hide Next, Enabled;
    var t, p := Next(s, step), step.p;
    forall e | e in step.order ensures e in s.places && s.places[e].Cached? {
      assert e in s.cache.Values;
    }
    TakeHold(s.places, s.threads, p, ClearingUrls(step.order), step.order);
    CalledUnaffected(s.places, s.called, step.order, Held(p));
    NumbersUnaffected(s.places, s.created, step.order, Held(p));
    UncacheAll(s.places, s.cache, step.order, Held(p));
    hide PendingPlaced, CalledPlaced, CachePlaced, Numbered, Relocate;
  }

  lemma DisposeOneKeepsPlaced(s: State, step: Step)
    requires Placed(s) && Enabled(s, step) && step.DisposeOne?
    ensures Placed(Next(s, step))
  {
    var t, p, pending := Next(s, step), step.p, s.threads[step.p].pending;
    var e := pending[0];
    assert e in Pending(s.threads[p]) && s.places[e] == Held(p);
    assert e !in s.called;
    assert pending == [e] + pending[1..];
    LetGo(s.places, s.threads, p, Disposing(pending[1..]), [e], pending[1..], Called(false));
    RelocateOne(s.places, e, Called(false));
    CallOne(s.places, s.called, e, false);
    CacheUnaffected(s.places, s.cache, [e], Called(false));
    NumbersUnaffected(s.places, s.created, [e], Called(false));
    hide PendingPlaced, CachePlaced, CalledPlaced, Numbered, Relocate;
  }

  lemma CallOne(places: map<nat, Place>, called: seq<nat>, e: nat, raised: bool)
    requires CalledPlaced(places, called) && e in places && !places[e].Called?
    ensures CalledPlaced(places[e := Called(raised)], called + [e])
  {
    assert e !in called;
  }

  lemma RaiseShape(s: State, step: Step)
    requires Enabled(s, step) && step.DisposeRaises?
    ensures s.threads[step.p].Disposing? && s.threads[step.p].pending != []
    ensures var t, p, pending := Next(s, step), step.p, s.threads[step.p].pending;
            && t.created == s.created && t.cache == s.cache && t.called == s.called + [pending[0]]
            && t.places == AfterRaise(s.places, pending)
            && t.threads == s.threads[p := Idle]
  {
    hide Relocate;
  }

  lemma HeldList(places: map<nat, Place>, threads: map<int, Pc>, p: int)
    requires PendingPlaced(places, threads) && p in threads
    ensures Distinct(Pending(threads[p])) && forall e :: e in Pending(threads[p]) ==> e in places && places[e] == Held(p)
  {
  }

  /** First the engine whose `dispose()` raises is let go, then the rest of the list, which is given up. */
  lemma RaiseLetsGo(places: map<nat, Place>, threads: map<int, Pc>, p: int, pending: seq<nat>)
    requires PendingPlaced(places, threads) && p in threads && threads[p] == Disposing(pending) && pending != []
    ensures PendingPlaced(AfterRaise(places, pending), threads[p := Idle])
  {
    hide PendingPlaced, Relocate;
    var e, rest := pending[0], pending[1..];
    var threads' := threads[p := Disposing(rest)];
    assert pending == [e] + rest && rest == rest + [];
    RelocateOne(places, e, Called(true));
    LetGo(places, threads, p, Disposing(rest), [e], rest, Called(true));
    LetGo(places[e := Called(true)], threads', p, Idle, rest, [], Skipped);
    assert threads'[p := Idle] == threads[p := Idle];
  }

  lemma RaiseKeepsOthers(places: map<nat, Place>, cache: map<Url, nat>, called: seq<nat>, created: nat, pending: seq<nat>)
    requires CachePlaced(places, cache) && CalledPlaced(places, called) && Numbered(places, created)
    requires pending != [] && Distinct(pending) && forall e :: e in pending ==> e in places && places[e].Held?
    ensures CachePlaced(AfterRaise(places, pending), cache)
    ensures CalledPlaced(AfterRaise(places, pending), called + [pending[0]])
    ensures Numbered(AfterRaise(places, pending), created)
  {
    hide CachePlaced, CalledPlaced, Numbered, Relocate;
    var e, rest := pending[0], pending[1..];
    var places' := places[e := Called(true)];
    assert forall x :: x in rest ==> x in pending && x != e;
    RelocateOne(places, e, Called(true));
    CacheUnaffected(places, cache, [e], Called(true));
    CacheUnaffected(places', cache, rest, Skipped);
    NumbersUnaffected(places, created, [e], Called(true));
    NumbersUnaffected(places', created, rest, Skipped);
    CallOne(places, called, e, true);
    CalledUnaffected(places', called + [e], rest, Skipped);
  }

  lemma DisposeRaisesKeepsPlaced(s: State, step: Step)
    requires Placed(s) && Enabled(s, step) && step.DisposeRaises?
    ensures Placed(Next(s, step))
  {
    RaiseShape(s, step);
    var p, pending := step.p, s.threads[step.p].pending;
    hide Next, Enabled, PendingPlaced, CalledPlaced, CachePlaced, Numbered;
    HeldList(s.places, s.threads, p);
    RaiseLetsGo(s.places, s.threads, p, pending);
    RaiseKeepsOthers(s.places, s.cache, s.called, s.created, pending);
  }

  lemma StepKeepsInv(s: State, step: Step)
    requires Inv(s) && Enabled(s, step)
    ensures Inv(Next(s, step))
  {
    hide Exclusive, KeysAgree, Placed, Enabled, Next;
    StepKeepsExclusive(s, step);
    StepKeepsKeys(s, step);
    if step.Create? {
      CreateKeepsPlaced(s, step);
    } else if step.Pop? {
      PopKeepsPlaced(s, step);
    } else if step.Clear? {
      ClearKeepsPlaced(s, step);
    } else if step.DisposeOne? {
      DisposeOneKeepsPlaced(s, step);
    } else if step.DisposeRaises? {
      DisposeRaisesKeepsPlaced(s, step);
    } else {
      OtherStepsMoveNothing(s, step);
      NothingMoves(s, Next(s, step));
    }
  }

  lemma InitInv(wellFormed: Url -> bool, pids: set<int>)
    ensures Inv(Init(wellFormed, pids))
  {
  }

  lemma {:induction false} RunKeepsInv(s: State, steps: seq<Step>, t: State)
    requires Inv(s) && Runs(s, steps, t)
    ensures Inv(t)
    decreases |steps|
  {
    if steps != [] {
      StepKeepsInv(s, steps[0]);
      RunKeepsInv(Next(s, steps[0]), steps[1..], t);
    }
  }

  // ---------------------------------------------------------------- results

  ghost predicate NoneRaise(steps: seq<Step>) {
    forall i :: 0 <= i < |steps| ==> !steps[i].DisposeRaises?
  }

  /** A `dispose()` raises with further engines waiting behind it. */
  predicate Skips(s: State, step: Step) {
    Enabled(s, step) && step.DisposeRaises? && |s.threads[step.p].pending| >= 2
  }

  ghost predicate SkipsSomewhere(s: State, steps: seq<Step>)
    decreases |steps|
  {
    steps != [] && (Skips(s, steps[0]) || (Enabled(s, steps[0]) && SkipsSomewhere(Next(s, steps[0]), steps[1..])))
  }

  ghost predicate AnySkipped(places: map<nat, Place>) {
    exists e :: e in places && places[e].Skipped?
  }

  ghost predicate AnyRaised(places: map<nat, Place>) {
    exists e :: e in places && places[e] == Called(true)
  }

  ghost predicate HasSkipped(s: State) {
    AnySkipped(s.places)
  }

  ghost predicate HasRaised(s: State) {
    AnyRaised(s.places)
  }

  /** The steps that skip an engine, and those after which one has raised. */
  lemma StepSkipsIff(s: State, step: Step)
    requires Inv(s) && Enabled(s, step)
    ensures HasSkipped(Next(s, step)) <==> HasSkipped(s) || Skips(s, step)
    ensures HasRaised(Next(s, step)) <==> HasRaised(s) || step.DisposeRaises?
  {
    var t := Next(s, step);
    if step.DisposeRaises? {
      RaiseSkips(s, step);
    } else if MovesEngines(step) {
      MoveSkipsNothing(s, step);
      hide Next, Enabled;
      SameEnds(s, t);
    } else {
      hide Next, Enabled;
      OtherStepsMoveNothing(s, step);
    }
  }

  lemma RaiseSkips(s: State, step: Step)
    requires Placed(s) && Enabled(s, step) && step.DisposeRaises?
    ensures HasSkipped(Next(s, step)) <==> HasSkipped(s) || Skips(s, step)
    ensures HasRaised(Next(s, step))
  {
    RaiseShape(s, step);
    var t, pending := Next(s, step), s.threads[step.p].pending;
    HeldList(s.places, s.threads, step.p);
    hide Next, AfterRaise, Placed;
    EndsAfterRaise(s.places, pending);
  }

  lemma EndsAfterRaise(places: map<nat, Place>, pending: seq<nat>)
    requires pending != [] && Distinct(pending) && forall e :: e in pending ==> e in places && places[e].Held?
    ensures AnySkipped(AfterRaise(places, pending)) <==> AnySkipped(places) || |pending| >= 2
    ensures AnyRaised(AfterRaise(places, pending))
  {
    var after := AfterRaise(places, pending);
    PlacesAfterRaise(places, pending);
    hide AfterRaise, Distinct;
    assert after[pending[0]] == Called(true);
    if |pending| >= 2 {
      assert after[pending[1]] == Skipped;
    }
    if AnySkipped(places) {
      var e :| e in places && places[e].Skipped?;
      assert after[e].Skipped?;
    }
    if AnySkipped(after) && |pending| == 1 {
      var e :| e in after && after[e].Skipped?;
      assert e != pending[0] && e !in pending && places[e].Skipped?;
    }
  }

  lemma PlacesAfterRaise(places: map<nat, Place>, pending: seq<nat>)
    requires pending != [] && Distinct(pending) && forall e :: e in pending ==> e in places
    ensures var after := AfterRaise(places, pending);
            && after.Keys == places.Keys && after[pending[0]] == Called(true)
            && (forall e :: e in places && e !in pending ==> after[e] == places[e])
            && (forall i :: 0 < i < |pending| ==> pending[i] in after && after[pending[i]] == Skipped)
  {
    var rest := pending[1..];
    assert pending == [pending[0]] + rest;
    assert forall i :: 0 < i < |pending| ==> pending[i] == rest[i - 1];
  }

  ghost predicate EndsKept(a: map<nat, Place>, b: map<nat, Place>) {
    forall e :: e in a && (a[e].Skipped? || a[e] == Called(true)) ==> e in b && b[e] == a[e]
  }

  lemma SameEnds(s: State, t: State)
    requires EndsKept(s.places, t.places) && EndsKept(t.places, s.places)
    ensures HasSkipped(t) <==> HasSkipped(s)
    ensures HasRaised(t) <==> HasRaised(s)
  {
    if HasSkipped(s) {
      var e :| e in s.places && s.places[e].Skipped?;
      assert e in t.places && t.places[e].Skipped?;
    }
    if HasRaised(s) {
      var e :| e in s.places && s.places[e] == Called(true);
      assert e in t.places && t.places[e] == Called(true);
    }
  }

  lemma MoveSkipsNothing(s: State, step: Step)
    requires Placed(s) && Enabled(s, step) && MovesEngines(step) && !step.DisposeRaises?
    ensures EndsKept(s.places, Next(s, step).places) && EndsKept(Next(s, step).places, s.places)
  {
    if step.Clear? {
      forall e | e in step.order ensures e in s.places && s.places[e].Cached? {
        assert e in s.cache.Values;
      }
    } else if step.DisposeOne? {
      var e := s.threads[step.p].pending[0];
      assert e in Pending(s.threads[step.p]);
    }
  }

  /** Over a run, an engine is given up exactly when some `dispose()` raised with engines behind it. */
  lemma {:induction false} RunSkipsIff(s: State, steps: seq<Step>, t: State)
    requires Inv(s) && Runs(s, steps, t)
    ensures HasSkipped(t) <==> HasSkipped(s) || SkipsSomewhere(s, steps)
    ensures HasRaised(t) <==> HasRaised(s) || !NoneRaise(steps)
    decreases |steps|
  {
    if steps != [] {
      hide Next, Enabled, Inv, Skips;
      StepSkipsIff(s, steps[0]);
      StepKeepsInv(s, steps[0]);
      RunSkipsIff(Next(s, steps[0]), steps[1..], t);
      NoneRaiseHead(steps);
    }
  }

  lemma NoneRaiseHead(steps: seq<Step>)
    requires steps != []
    ensures NoneRaise(steps) <==> !steps[0].DisposeRaises? && NoneRaise(steps[1..])
  {
    if NoneRaise(steps[1..]) && !steps[0].DisposeRaises? {
      forall i | 0 <= i < |steps| ensures !steps[i].DisposeRaises? {
        if 0 < i { assert steps[i] == steps[1..][i - 1]; }
      }
    }
  }

  /** A `dispose()` of this engine returned. */
  predicate Disposed(s: State, e: nat) {
    e in s.places && s.places[e] == Called(false)
  }

  /**
   Under every interleaving: no engine is disposed twice or cached under two keys, `dispose()` is not called on a cached
   engine, and with the lock free the two dictionaries have the same keys. Once every thread is idle, each engine ever
   created is cached or has had its one `dispose()` call exactly if no call raised with engines behind it, which are then
   skipped; and is cached or disposed exactly if no call raised at all.
   */
  lemma EnginesAreConserved(wellFormed: Url -> bool, pids: set<int>, steps: seq<Step>, t: State)
    requires Runs(Init(wellFormed, pids), steps, t)
    ensures t.lock.None? ==> t.cache.Keys == t.masked
    ensures Distinct(t.called) && forall e :: e in t.called ==> e < t.created
    ensures forall u :: u in t.cache ==> t.cache[u] < t.created && t.cache[u] !in t.called
    ensures forall u, v :: u in t.cache && v in t.cache && t.cache[u] == t.cache[v] ==> u == v
    ensures (forall p :: p in t.threads ==> t.threads[p].Idle?) ==>
              (!SkipsSomewhere(Init(wellFormed, pids), steps) <==>
               forall e: nat :: e < t.created ==> e in t.cache.Values || e in t.called)
    ensures (forall p :: p in t.threads ==> t.threads[p].Idle?) ==>
              (NoneRaise(steps) <==> forall e: nat :: e < t.created ==> e in t.cache.Values || Disposed(t, e))
  {
    hide Next, Enabled, Exclusive, SkipsSomewhere, NoneRaise;
    InitInv(wellFormed, pids);
    RunKeepsInv(Init(wellFormed, pids), steps, t);
    RunSkipsIff(Init(wellFormed, pids), steps, t);
    InitHasNone(wellFormed, pids);
    if forall p :: p in t.threads ==> t.threads[p].Idle? {
      IdleRuns(t);
      assert !HasSkipped(t) && HasRaised(t) ==> !NoneRaise(steps);
      SkippingRaises(Init(wellFormed, pids), steps);
    }
  }

  lemma InitHasNone(wellFormed: Url -> bool, pids: set<int>)
    ensures !HasSkipped(Init(wellFormed, pids)) && !HasRaised(Init(wellFormed, pids))
  {
  }

  lemma {:induction false} SkippingRaises(s: State, steps: seq<Step>)
    ensures SkipsSomewhere(s, steps) ==> !NoneRaise(steps)
    decreases |steps|
  {
    if SkipsSomewhere(s, steps) {
      NoneRaiseHead(steps);
      if Enabled(s, steps[0]) {
        SkippingRaises(Next(s, steps[0]), steps[1..]);
      }
    }
  }

  /** With every thread idle, what the two ends of an engine tell of all engines. */
  lemma IdleRuns(t: State)
    requires Placed(t) && forall p :: p in t.threads ==> t.threads[p].Idle?
    ensures !HasSkipped(t) <==> forall e: nat :: e < t.created ==> e in t.cache.Values || e in t.called
    ensures !HasSkipped(t) && !HasRaised(t) <==> forall e: nat :: e < t.created ==> e in t.cache.Values || Disposed(t, e)
  {
    forall e: nat | e < t.created
      ensures e in t.places
      ensures e in t.cache.Values || e in t.called <==> !t.places[e].Skipped?
      ensures e in t.cache.Values || Disposed(t, e) <==> !t.places[e].Skipped? && t.places[e] != Called(true)
    {
      IdlePlaces(t, e);
    }
    assert forall e :: e in t.places ==> e < t.created;
    if HasSkipped(t) {
      var e :| e in t.places && t.places[e].Skipped?;
      assert e < t.created;
    }
    if HasRaised(t) {
      var e :| e in t.places && t.places[e] == Called(true);
      assert e < t.created;
    }
  }

  /** With every thread idle, where an engine can be. */
  lemma IdlePlaces(t: State, e: nat)
    requires Placed(t) && e < t.created && forall p :: p in t.threads ==> t.threads[p].Idle?
    ensures e in t.places && (e in t.cache.Values || e in t.called <==> !t.places[e].Skipped?)
    ensures e in t.cache.Values <==> t.places[e].Cached?
  {
    assert e in t.places;
    if t.places[e].Cached? { assert t.cache[t.places[e].url] == e; }
    if e in t.cache.Values {
      var u :| u in t.cache && t.cache[u] == e;
      assert t.places[t.cache[u]] == Cached(u);
    }
  }

  /** `step` is the moment at which some `get_engine(url)` determines the engine it returns. */
  predicate Returns(s: State, step: Step, url: Url, engine: nat) {
    && Enabled(s, step) && url in s.cache && s.cache[url] == engine
    && (step.FastGet? || step.Fetch?) && s.threads[step.p].url == url
  }

  predicate Removes(s: State, step: Step, url: Url) {
    Enabled(s, step) && (step.Clear? || (step.Pop? && s.threads[step.p].url == url))
  }

  ghost predicate NeverRemoved(s: State, steps: seq<Step>, url: Url)
    decreases |steps|
  {
    steps == [] || (!Removes(s, steps[0], url) && Enabled(s, steps[0]) && NeverRemoved(Next(s, steps[0]), steps[1..], url))
  }

  lemma GettingRemovesNothing(s: State, step: Step, url: Url)
    requires Enabled(s, step) && (step.FastGet? || step.Fetch?)
    ensures !Removes(s, step, url)
  {
  }

  lemma EngineStaysCached(s: State, step: Step, url: Url)
    requires Inv(s) && Enabled(s, step) && url in s.cache && !Removes(s, step, url)
    ensures url in Next(s, step).cache && Next(s, step).cache[url] == s.cache[url]
  {
    if step.Create? { assert s.lock == Some(step.p); }
  }

  lemma {:induction false} CachedUntilRemoved(s: State, steps: seq<Step>, t: State, url: Url)
    requires Inv(s) && url in s.cache && Runs(s, steps, t) && NeverRemoved(s, steps, url)
    ensures Inv(t) && url in t.cache && t.cache[url] == s.cache[url]
    decreases |steps|
  {
    if steps != [] {
      EngineStaysCached(s, steps[0], url);
      StepKeepsInv(s, steps[0]);
      CachedUntilRemoved(Next(s, steps[0]), steps[1..], t, url);
    }
  }

  /** Two calls for one URL with no removal of it between them return the same engine. */
  lemma GetsAgreeUntilRemoved(wellFormed: Url -> bool, pids: set<int>, before: seq<Step>, s: State, first: Step,
                              between: seq<Step>, t: State, second: Step, url: Url, e1: nat, e2: nat)
    requires Runs(Init(wellFormed, pids), before, s) && Returns(s, first, url, e1)
    requires Runs(Next(s, first), between, t) && NeverRemoved(Next(s, first), between, url)
    requires Returns(t, second, url, e2)
    ensures e1 == e2
  {
    hide Next, Enabled, Exclusive, KeysAgree, Placed, NeverRemoved;
    InitInv(wellFormed, pids);
    RunKeepsInv(Init(wellFormed, pids), before, s);
    StepKeepsInv(s, first);
    GettingRemovesNothing(s, first, url);
    EngineStaysCached(s, first, url);
    CachedUntilRemoved(Next(s, first), between, t, url);
  }

  /** A thread that has passed the lock always finds its key: `_engine_cache[key]` cannot fail. */
  lemma FetchNeverFails(wellFormed: Url -> bool, pids: set<int>, steps: seq<Step>, t: State, p: int)
    requires Runs(Init(wellFormed, pids), steps, t) && p in t.threads && t.threads[p].Fetching?
    ensures t.threads[p].url in t.cache
  {
    InitInv(wellFormed, pids);
    RunKeepsInv(Init(wellFormed, pids), steps, t);
    assert t.lock == Some(p);
  }

  // ---------------------------------------------------------------- what a finished call has done

  /** Thread `p` is busy all the way along this run, and idle again at its end. */
  ghost predicate BusyTo(s: State, steps: seq<Step>, p: int)
    decreases |steps|
  {
    p in s.threads
    && if steps == [] then s.threads[p].Idle?
       else !s.threads[p].Idle? && Enabled(s, steps[0]) && BusyTo(Next(s, steps[0]), steps[1..], p)
  }

  /** One of the `dispose()` calls of thread `p` raises with engines behind it. */
  ghost predicate SkipsBy(s: State, steps: seq<Step>, p: int)
    decreases |steps|
  {
    steps != []
    && Enabled(s, steps[0])
    && ((steps[0].p == p && steps[0].DisposeRaises? && |s.threads[p].pending| >= 2) || SkipsBy(Next(s, steps[0]), steps[1..], p))
  }

  lemma StepCalls(s: State, step: Step)
    requires Enabled(s, step)
    ensures s.called <= Next(s, step).called
  {
    hide Relocate, AfterRaise, ListsCache;
  }

  lemma {:induction false} RunCalls(s: State, steps: seq<Step>, t: State)
    requires Runs(s, steps, t)
    ensures s.called <= t.called
    decreases |steps|
  {
    if steps != [] {
      hide Next, Enabled;
      StepCalls(s, steps[0]);
      RunCalls(Next(s, steps[0]), steps[1..], t);
    }
  }

  lemma OthersKeepThread(s: State, step: Step, p: int)
    requires Enabled(s, step) && p in s.threads && step.p != p
    ensures p in Next(s, step).threads && Next(s, step).threads[p] == s.threads[p]
  {
    hide Next, Enabled;
    StepsLockProperly(s, step);
  }

  /** Past the removal: everything that is left to do is in the thread's list. */
  predicate HasRemoved(pc: Pc) {
    pc.PoppingUrl? || pc.ClearingUrls? || pc.Unlocking? || pc.Disposing? || pc.Raising? || pc.Idle?
  }

  lemma OwnRemovalStep(s: State, step: Step)
    requires Inv(s) && Enabled(s, step) && HasRemoved(s.threads[step.p]) && !s.threads[step.p].Idle?
    ensures var t, p := Next(s, step), step.p;
            && p in t.threads && HasRemoved(t.threads[p])
            && if step.DisposeOne? || step.DisposeRaises? then
                 && Pending(s.threads[p]) != [] && t.called == s.called + [Pending(s.threads[p])[0]]
                 && Pending(t.threads[p]) == (if step.DisposeOne? then Pending(s.threads[p])[1..] else [])
                 && (step.DisposeRaises? ==> t.threads[p].Idle?)
               else Pending(t.threads[p]) == Pending(s.threads[p])
  {
    hide Relocate, AfterRaise, ListsCache;
    if step.PopUrl? {
      PopUrlMovesNothing(s, step);
    }
  }

  /** The engines a thread has removed have all had their `dispose()` call when it is done, unless one raised too early. */
  lemma {:induction false} HeldAreCalled(s: State, steps: seq<Step>, t: State, p: int)
    requires Inv(s) && Runs(s, steps, t) && BusyTo(s, steps, p) && HasRemoved(s.threads[p])
    ensures (forall e :: e in Pending(s.threads[p]) ==> e in t.called) <==> !SkipsBy(s, steps, p)
    decreases |steps|
  {
    if steps != [] {
      var step, u := steps[0], Next(s, steps[0]);
      var pending := Pending(s.threads[p]);
      StepKeepsInv(s, step);
      if step.p != p {
        OthersKeepThread(s, step, p);
        hide Next, Enabled, Inv;
        HeldAreCalled(u, steps[1..], t, p);
      } else if step.DisposeRaises? {
        OwnRemovalStep(s, step);
        RaiseShape(s, step);
        RaisedListEnds(s, step);
        hide Next, Inv, AfterRaise;
        assert steps[1..] == [] && t == u;
        assert !SkipsBy(u, [], p);
        if |pending| == 1 {
          assert pending == [pending[0]];
        }
      } else {
        OwnRemovalStep(s, step);
        hide Next, Enabled, Inv;
        RunCalls(u, steps[1..], t);
        HeldAreCalled(u, steps[1..], t, p);
        if step.DisposeOne? {
          assert pending == [pending[0]] + pending[1..];
          assert pending[0] in u.called;
        }
      }
    }
  }

  /** An engine that was skipped is not among those called. */
  lemma RaisedListEnds(s: State, step: Step)
    requires Inv(s) && Enabled(s, step) && step.DisposeRaises?
    ensures var pending := s.threads[step.p].pending; |pending| >= 2 ==> pending[1] !in Next(s, step).called
  {
    var pending := s.threads[step.p].pending;
    HeldList(s.places, s.threads, step.p);
    DisposeRaisesKeepsPlaced(s, step);
    RaiseShape(s, step);
    hide Next, Enabled, AfterRaise;
    PlacesAfterRaise(s.places, pending);
  }

  lemma {:induction false} RunsJoin(s: State, a: seq<Step>, t: State, b: seq<Step>, u: State)
    requires Runs(s, a, t) && Runs(t, b, u)
    ensures Runs(s, a + b, u)
    decreases |a|
  {
    hide Next, Enabled;
    if a == [] {
      assert a + b == b;
    } else {
      RunsJoin(Next(s, a[0]), a[1..], t, b, u);
      assert (a + b)[1..] == a[1..] + b;
    }
  }

  lemma RunsCons(s: State, step: Step, a: seq<Step>, t: State)
    requires Enabled(s, step) && Runs(Next(s, step), a, t)
    ensures Runs(s, [step] + a, t)
  {
    hide Next, Enabled;
    assert ([step] + a)[1..] == a;
  }

  /** With the lock held, nobody else changes the cache or the holder's place in its code. */
  lemma HolderIsSafe(s: State, step: Step, p: int)
    requires Inv(s) && Enabled(s, step) && p in s.threads && HoldsLock(s.threads[p]) && step.p != p
    ensures var t := Next(s, step);
            t.cache == s.cache && p in t.threads && t.threads[p] == s.threads[p]
  {
    hide Next, Enabled, KeysAgree, Placed;
    OthersKeepThread(s, step, p);
    assert s.lock == Some(p);
    StepsLockProperly(s, step);
    OnlyHolderWrites(s, step);
  }

  /** The step a thread takes from each point of the two removals. */
  lemma RemovalSteps(s: State, step: Step)
    requires Enabled(s, step)
    ensures var pc, t := s.threads[step.p], Next(s, step);
            && (pc.Popping? ==> step.Pop?) && (pc.Clearing? ==> step.Clear?)
            && (pc.WaitingToPop? ==> t.lock == Some(step.p) && step.p in t.threads && t.threads[step.p] == Popping(pc.url))
            && (pc.WaitingToClear? ==> t.lock == Some(step.p) && step.p in t.threads && t.threads[step.p] == Clearing)
            && ((pc.WaitingToClear? || pc.Clearing?) ==> !step.DisposeRaises?)
  {
    hide Relocate, AfterRaise, ListsCache;
  }

  lemma RemovalsBegin(s: State, p: int, url: Url)
    ensures Enabled(s, BeginDispose(p, url)) ==> Next(s, BeginDispose(p, url)) == Move(s, p, WaitingToPop(url))
    ensures Enabled(s, BeginClear(p)) ==> Next(s, BeginClear(p)) == Move(s, p, WaitingToClear)
  {
  }

  lemma OneStep(s: State, step: Step)
    requires Enabled(s, step)
    ensures Runs(s, [step], Next(s, step))
  {
    EmptyRun(Next(s, step));
    RunsCons(s, step, [], Next(s, step));
    assert [step] + [] == [step];
  }

  /** From `pop` on: the key is gone afterwards, and what it was mapped to has had its `dispose()` call in the end. */
  lemma {:induction false} PopRemoves(s: State, steps: seq<Step>, t: State, p: int, url: Url)
    returns (a: seq<Step>, gone: State, b: seq<Step>)
    requires Inv(s) && Runs(s, steps, t) && BusyTo(s, steps, p) && s.threads[p] == Popping(url)
    ensures steps == a + b && Runs(s, a, gone) && Runs(gone, b, t) && url !in gone.cache
    ensures url in s.cache ==> s.cache[url] in t.called
    decreases |steps|
  {
    hide Next, Enabled, Inv;
    var step, u := steps[0], Next(s, steps[0]);
    StepKeepsInv(s, step);
    assert steps == [step] + steps[1..];
    if step.p != p {
      HolderIsSafe(s, step, p);
      a, gone, b := PopRemoves(u, steps[1..], t, p, url);
      RunsCons(s, step, a, gone);
      a := [step] + a;
    } else {
      RemovalSteps(s, step);
      PopShape(s, step);
      a, gone, b := [step], u, steps[1..];
      OneStep(s, step);
      HeldAreCalled(u, b, t, p);
      ShortListsSkipNothing(u, b, p);
      if url in s.cache {
        assert s.cache[url] in Pending(u.threads[p]);
      }
    }
  }

  /** A list of one engine has none behind it. */
  lemma {:induction false} ShortListsSkipNothing(s: State, steps: seq<Step>, p: int)
    requires p in s.threads && HasRemoved(s.threads[p]) && |Pending(s.threads[p])| <= 1
    requires BusyTo(s, steps, p) && Inv(s)
    ensures !SkipsBy(s, steps, p)
    decreases |steps|
  {
    if steps != [] {
      var step := steps[0];
      assert step.p == p && step.DisposeRaises? ==> s.threads[p].pending == Pending(s.threads[p]) by { hide Next, Inv; }
      hide Next, Inv, Enabled;
      StepKeepsInv(s, step);
      if step.p != p {
        OthersKeepThread(s, step, p);
      } else {
        OwnRemovalStep(s, step);
      }
      ShortListsSkipNothing(Next(s, step), steps[1..], p);
    }
  }

  lemma {:induction false} WaitsThenPops(s: State, steps: seq<Step>, t: State, p: int, url: Url)
    returns (a: seq<Step>, locked: State, b: seq<Step>)
    requires Inv(s) && Runs(s, steps, t) && BusyTo(s, steps, p) && s.threads[p] == WaitingToPop(url)
    ensures steps == a + b && Runs(s, a, locked) && Runs(locked, b, t) && Inv(locked) && BusyTo(locked, b, p)
    ensures p in locked.threads && locked.threads[p] == Popping(url) && locked.lock == Some(p)
    decreases |steps|
  {
    hide Next, Enabled, Inv;
    var step, u := steps[0], Next(s, steps[0]);
    StepKeepsInv(s, step);
    assert steps == [step] + steps[1..];
    if step.p != p {
      OthersKeepThread(s, step, p);
      a, locked, b := WaitsThenPops(u, steps[1..], t, p, url);
      RunsCons(s, step, a, locked);
      a := [step] + a;
    } else {
      RemovalSteps(s, step);
      a, locked, b := [step], u, steps[1..];
      OneStep(s, step);
    }
  }

  lemma {:induction false} WaitsThenClears(s: State, steps: seq<Step>, t: State, p: int)
    returns (a: seq<Step>, locked: State, b: seq<Step>)
    requires Inv(s) && Runs(s, steps, t) && BusyTo(s, steps, p) && s.threads[p] == WaitingToClear
    ensures steps == a + b && Runs(s, a, locked) && Runs(locked, b, t) && Inv(locked) && BusyTo(locked, b, p)
    ensures p in locked.threads && locked.threads[p] == Clearing && locked.lock == Some(p)
    ensures SkipsBy(s, steps, p) <==> SkipsBy(locked, b, p)
    decreases |steps|
  {
    hide Next, Enabled, Inv;
    var step, u := steps[0], Next(s, steps[0]);
    StepKeepsInv(s, step);
    assert steps == [step] + steps[1..];
    if step.p != p {
      OthersKeepThread(s, step, p);
      a, locked, b := WaitsThenClears(u, steps[1..], t, p);
      RunsCons(s, step, a, locked);
      a := [step] + a;
    } else {
      RemovalSteps(s, step);
      a, locked, b := [step], u, steps[1..];
      OneStep(s, step);
    }
  }

  lemma {:induction false} ClearRemoves(s: State, steps: seq<Step>, t: State, p: int)
    returns (a: seq<Step>, gone: State, b: seq<Step>)
    requires Inv(s) && Runs(s, steps, t) && BusyTo(s, steps, p) && s.threads[p] == Clearing
    ensures steps == a + b && Runs(s, a, gone) && Runs(gone, b, t) && gone.cache == map[]
    ensures (forall u :: u in s.cache ==> s.cache[u] in t.called) <==> !SkipsBy(s, steps, p)
    decreases |steps|
  {
    hide Next, Enabled, Inv, AfterRaise, Relocate, ListsCache;
    var step, u := steps[0], Next(s, steps[0]);
    StepKeepsInv(s, step);
    assert steps == [step] + steps[1..];
    if step.p != p {
      HolderIsSafe(s, step, p);
      a, gone, b := ClearRemoves(u, steps[1..], t, p);
      RunsCons(s, step, a, gone);
      a := [step] + a;
    } else {
      RemovalSteps(s, step);
      ClearShape(s, step);
      a, gone, b := [step], u, steps[1..];
      OneStep(s, step);
      HeldAreCalled(u, b, t, p);
      SameEngines(s, step.order, t.called);
    }
  }

  lemma SameEngines(s: State, order: seq<nat>, called: seq<nat>)
    requires ListsCache(s, order)
    ensures (forall u :: u in s.cache ==> s.cache[u] in called) <==> (forall e :: e in order ==> e in called)
  {
    forall e | e in order ensures exists u :: u in s.cache && s.cache[u] == e {
      assert e in s.cache.Values;
    }
  }

  /**
   A finished `dispose_engine(url)` has taken the lock; after that there was a moment without the key, and the engine that
   was cached for it when the lock was taken has had its `dispose()` call.
   */
  lemma DisposeTakesEffect(wellFormed: Url -> bool, pids: set<int>, before: seq<Step>, s: State, p: int, url: Url,
                           during: seq<Step>, t: State)
    returns (a: seq<Step>, locked: State, b: seq<Step>, gone: State, c: seq<Step>)
    requires Runs(Init(wellFormed, pids), before, s) && Enabled(s, BeginDispose(p, url))
    requires var begun := Next(s, BeginDispose(p, url)); Runs(begun, during, t) && BusyTo(begun, during, p)
    ensures var begun := Next(s, BeginDispose(p, url));
            during == a + b + c && Runs(begun, a, locked) && Runs(locked, b, gone) && Runs(gone, c, t)
    ensures locked.lock == Some(p) && url !in gone.cache
    ensures url in locked.cache ==> locked.cache[url] in t.called
  {
    hide Next, Enabled, Exclusive, KeysAgree, Placed, BusyTo, SkipsBy;
    InitInv(wellFormed, pids);
    RunKeepsInv(Init(wellFormed, pids), before, s);
    StepKeepsInv(s, BeginDispose(p, url));
    RemovalsBegin(s, p, url);
    var begun := Next(s, BeginDispose(p, url));
    var rest;
    a, locked, rest := WaitsThenPops(begun, during, t, p, url);
    b, gone, c := PopRemoves(locked, rest, t, p, url);
    assert a + (b + c) == a + b + c;
  }

  /**
   A finished `dispose_all_engines()` likewise: the cache was empty at some moment after it took the lock, and every engine
   that was cached then has had its `dispose()` call exactly if none of them raised with engines behind it.
   */
  lemma DisposeAllTakesEffect(wellFormed: Url -> bool, pids: set<int>, before: seq<Step>, s: State, p: int,
                              during: seq<Step>, t: State)
    returns (a: seq<Step>, locked: State, b: seq<Step>, gone: State, c: seq<Step>)
    requires Runs(Init(wellFormed, pids), before, s) && Enabled(s, BeginClear(p))
    requires var begun := Next(s, BeginClear(p)); Runs(begun, during, t) && BusyTo(begun, during, p)
    ensures var begun := Next(s, BeginClear(p));
            during == a + b + c && Runs(begun, a, locked) && Runs(locked, b, gone) && Runs(gone, c, t)
    ensures locked.lock == Some(p) && gone.cache == map[]
    ensures (forall u :: u in locked.cache ==> locked.cache[u] in t.called) <==> !SkipsBy(Next(s, BeginClear(p)), during, p)
  {
    hide Next, Enabled, Exclusive, KeysAgree, Placed, BusyTo, SkipsBy;
    InitInv(wellFormed, pids);
    RunKeepsInv(Init(wellFormed, pids), before, s);
    StepKeepsInv(s, BeginClear(p));
    RemovalsBegin(s, p, "");
    var begun := Next(s, BeginClear(p));
    var rest;
    a, locked, rest := WaitsThenClears(begun, during, t, p);
    b, gone, c := ClearRemoves(locked, rest, t, p);
    assert a + (b + c) == a + b + c;
  }

  /** Thread `p` stays busy along this run. */
  ghost predicate BusyAlong(s: State, steps: seq<Step>, p: int)
    decreases |steps|
  {
    p in s.threads && !s.threads[p].Idle?
    && (steps != [] ==> Enabled(s, steps[0]) && BusyAlong(Next(s, steps[0]), steps[1..], p))
  }

  predicate Seeks(pc: Pc, url: Url) {
    (pc.Looking? || pc.Waiting? || pc.Checking? || pc.Masking? || pc.Creating? || pc.Recording? || pc.Fetching?) && pc.url == url
  }

  predicate Has(pc: Pc, url: Url, engine: nat) {
    (pc.Releasing? || pc.Got?) && pc.url == url && pc.engine == engine
  }

  /** A thread on its way to an engine goes on for the same URL, takes what is cached for it, or raises. */
  ghost predicate GetsOn(s: State, t: State, p: int, url: Url) {
    && p in s.threads && p in t.threads
    && var pc, to := s.threads[p], t.threads[p];
       && (Seeks(pc, url) ==> Seeks(to, url) || to.Raising? || (url in s.cache && Has(to, url, s.cache[url])))
       && ((pc.Releasing? || pc.Got?) && pc.url == url ==> Has(to, url, pc.engine) || to.Idle?)
       && (pc.Raising? ==> to.Idle?)
  }

  lemma GetSteps(s: State, step: Step, url: Url)
    requires Enabled(s, step)
    ensures GetsOn(s, Next(s, step), step.p, url)
  {
    hide Enabled, Next, GetsOn;
    if Getting(step) {
      GettingGetsOn(s, step, url);
    } else {
      RemovingGetsOn(s, step, url);
    }
  }

  lemma GettingGetsOn(s: State, step: Step, url: Url)
    requires Enabled(s, step) && Getting(step)
    ensures GetsOn(s, Next(s, step), step.p, url)
  {
  }

  lemma RemovingGetsOn(s: State, step: Step, url: Url)
    requires Enabled(s, step) && !Getting(step)
    ensures GetsOn(s, Next(s, step), step.p, url)
  {
    hide Relocate, AfterRaise, ListsCache;
  }

  lemma GetBegins(s: State, p: int, url: Url)
    requires Enabled(s, BeginGet(p, url))
    ensures p in Next(s, BeginGet(p, url)).threads && Seeks(Next(s, BeginGet(p, url)).threads[p], url)
  {
  }

  lemma {:induction false} HasForGood(s: State, steps: seq<Step>, t: State, p: int, url: Url)
    requires Runs(s, steps, t) && BusyAlong(s, steps, p)
    ensures p in t.threads
    ensures s.threads[p].Raising? ==> t.threads[p].Raising?
    ensures (s.threads[p].Releasing? || s.threads[p].Got?) && s.threads[p].url == url ==>
              Has(t.threads[p], url, s.threads[p].engine)
    decreases |steps|
  {
    if steps != [] {
      hide Next, Enabled;
      if steps[0].p == p {
        GetSteps(s, steps[0], url);
      } else {
        OthersKeepThread(s, steps[0], p);
      }
      HasForGood(Next(s, steps[0]), steps[1..], t, p, url);
    }
  }

  lemma {:induction false} SoughtWasCached(s: State, steps: seq<Step>, t: State, p: int, url: Url)
    returns (a: seq<Step>, found: State, b: seq<Step>)
    requires Runs(s, steps, t) && BusyAlong(s, steps, p) && Seeks(s.threads[p], url) && p in t.threads && t.threads[p].Got?
    ensures steps == a + b && Runs(s, a, found) && Runs(found, b, t)
    ensures t.threads[p].url == url && url in found.cache && found.cache[url] == t.threads[p].engine
    decreases |steps|
  {
    hide Next, Enabled;
    var step, u := steps[0], Next(s, steps[0]);
    assert steps == [step] + steps[1..];
    if step.p == p {
      GetSteps(s, step, url);
    } else {
      OthersKeepThread(s, step, p);
    }
    if Seeks(u.threads[p], url) {
      a, found, b := SoughtWasCached(u, steps[1..], t, p, url);
      RunsCons(s, step, a, found);
      a := [step] + a;
    } else {
      HasForGood(u, steps[1..], t, p, url);
      a, found, b := [], s, steps;
      EmptyRun(s);
    }
  }

  /** What a call of `get_engine(url)` returns was cached for that URL at some moment during the call. */
  lemma GetTakesEffect(wellFormed: Url -> bool, pids: set<int>, before: seq<Step>, s: State, p: int, url: Url,
                       during: seq<Step>, t: State)
    returns (a: seq<Step>, found: State, b: seq<Step>)
    requires Runs(Init(wellFormed, pids), before, s) && Enabled(s, BeginGet(p, url))
    requires var begun := Next(s, BeginGet(p, url)); Runs(begun, during, t) && BusyAlong(begun, during, p)
    requires p in t.threads && t.threads[p].Got?
    ensures var begun := Next(s, BeginGet(p, url));
            during == a + b && Runs(begun, a, found) && Runs(found, b, t)
    ensures t.threads[p].url == url && url in found.cache && found.cache[url] == t.threads[p].engine
  {
    hide Next, Enabled;
    GetBegins(s, p, url);
    a, found, b := SoughtWasCached(Next(s, BeginGet(p, url)), during, t, p, url);
  }

  /** The step by which a thread goes on, where `create_engine` and `dispose()` raise or not. */
  function Onward(pc: Pc, p: int, order: seq<nat>, raises: bool): Step {
    match pc
    case Idle => BeginClear(p)
    case Looking(_) => FastGet(p)
    case Waiting(_) => LockToGet(p)
    case Checking(_) => Check(p)
    case Masking(_) => Mask(p)
    case Creating(_) => if raises then CreateFails(p) else Create(p)
    case Recording(_) => Record(p)
    case Fetching(_) => Fetch(p)
    case Releasing(_, _) => Release(p)
    case Got(_, _) => EndGet(p)
    case WaitingToPop(_) => LockToPop(p)
    case Popping(_) => Pop(p)
    case PoppingUrl(_, _) => PopUrl(p)
    case WaitingToClear => LockToClear(p)
    case Clearing => Clear(p, order)
    case ClearingUrls(_) => ClearUrls(p)
    case Unlocking(_) => Unlock(p)
    case Disposing(pending) => if pending == [] then EndDispose(p) else if raises then DisposeRaises(p) else DisposeOne(p)
    case Raising => Propagate(p)
  }

  /** How far a call is from its end, engines to dispose of apart. */
  function Stage(pc: Pc): nat {
    match pc
    case Idle => 0
    case Got(_, _) => 1
    case Releasing(_, _) => 2
    case Fetching(_) => 3
    case Recording(_) => 4
    case Creating(_) => 5
    case Masking(_) => 6
    case Checking(_) => 7
    case Waiting(_) => 8
    case Looking(_) => 9
    case Raising => 1
    case Disposing(_) => 1
    case Unlocking(_) => 2
    case PoppingUrl(_, _) => 3
    case ClearingUrls(_) => 3
    case Popping(_) => 4
    case Clearing => 4
    case WaitingToPop(_) => 5
    case WaitingToClear => 5
  }

  predicate Awaits(pc: Pc) {
    pc.Waiting? || pc.WaitingToPop? || pc.WaitingToClear?
  }

  lemma OnwardIsEnabled(s: State, p: int, order: seq<nat>, raises: bool)
    requires p in s.threads && (s.lock.None? || !Awaits(s.threads[p]))
    requires s.threads[p].Fetching? ==> s.threads[p].url in s.cache
    requires s.threads[p].Clearing? ==> ListsCache(s, order)
    ensures Enabled(s, Onward(s.threads[p], p, order, raises)) && Onward(s.threads[p], p, order, raises).p == p
  {
    hide ListsCache;
  }

  ghost predicate GoesDown(s: State, t: State, p: int) {
    && p in s.threads && p in t.threads
    && var pc, to := s.threads[p], t.threads[p];
       Stage(to) < Stage(pc) || (Stage(to) == Stage(pc) && |Pending(to)| < |Pending(pc)|)
  }

  lemma OnwardGoesDown(s: State, p: int, order: seq<nat>, raises: bool)
    requires p in s.threads && !s.threads[p].Idle? && Enabled(s, Onward(s.threads[p], p, order, raises))
    ensures GoesDown(s, Next(s, Onward(s.threads[p], p, order, raises)), p)
  {
    hide Enabled, Next, GoesDown;
    var step := Onward(s.threads[p], p, order, raises);
    if Getting(step) {
      GettingGoesDown(s, step);
    } else {
      RemovingGoesDown(s, step);
    }
  }

  lemma GettingGoesDown(s: State, step: Step)
    requires Enabled(s, step) && Getting(step) && !s.threads[step.p].Idle?
    ensures GoesDown(s, Next(s, step), step.p)
  {
  }

  lemma RemovingGoesDown(s: State, step: Step)
    requires Enabled(s, step) && !Getting(step) && !s.threads[step.p].Idle?
    ensures GoesDown(s, Next(s, step), step.p)
  {
    hide ListsCache, Relocate, AfterRaise;
  }

  /** A thread that can have the lock ends its call without any other thread moving, and leaves the lock free. */
  lemma {:induction false} FinishesAlone(s: State, p: int, raises: bool) returns (steps: seq<Step>, t: State)
    requires Inv(s) && p in s.threads && (s.lock.None? || s.lock == Some(p))
    ensures Runs(s, steps, t) && Inv(t) && p in t.threads && t.threads[p].Idle? && t.lock.None?
    ensures t.threads.Keys == s.threads.Keys && forall q :: q in s.threads && q != p ==> t.threads[q] == s.threads[q]
    decreases Stage(s.threads[p]), |Pending(s.threads[p])|
  {
    hide Enabled, Next, Onward, KeysAgree, Placed, Stage, Pending;
    if s.threads[p].Idle? {
      steps, t := [], s;
      EmptyRun(s);
    } else {
      if s.threads[p].Fetching? {
        FetchHasItsKey(s, p);
      }
      if Awaits(s.threads[p]) {
        WaitsWithoutLock(s, p);
      }
      var order := ListOf(s.cache);
      assert ListsCache(s, order);
      OnwardIsEnabled(s, p, order, raises);
      OnwardGoesDown(s, p, order, raises);
      var step := Onward(s.threads[p], p, order, raises);
      StepKeepsInv(s, step);
      StepsLockProperly(s, step);
      hide Inv, HoldsLock;
      var rest;
      rest, t := FinishesAlone(Next(s, step), p, raises);
      RunsCons(s, step, rest, t);
      steps := [step] + rest;
    }
  }

  lemma WaitsWithoutLock(s: State, p: int)
    requires Exclusive(s) && p in s.threads && Awaits(s.threads[p])
    ensures s.lock != Some(p)
  {
  }

  lemma FetchHasItsKey(s: State, p: int)
    requires Exclusive(s) && KeysAgree(s) && p in s.threads && s.threads[p].Fetching?
    ensures s.threads[p].url in s.cache
  {
  }

  /** What a run that lets threads finish leaves: a free lock, the same threads, and those idle that were idle. */
  ghost predicate Settles(s: State, t: State) {
    && Inv(t) && t.lock.None? && t.threads.Keys == s.threads.Keys
    && forall q :: q in s.threads && s.threads[q].Idle? ==> t.threads[q].Idle?
  }

  lemma {:induction false} AllFinish(s: State, ids: seq<int>, raises: bool) returns (steps: seq<Step>, t: State)
    requires Inv(s) && s.lock.None? && forall k :: 0 <= k < |ids| ==> ids[k] in s.threads
    ensures Runs(s, steps, t) && Settles(s, t)
    ensures forall k :: 0 <= k < |ids| ==> t.threads[ids[k]].Idle?
    decreases |ids|
  {
    hide Enabled, Next, Inv;
    if ids == [] {
      steps, t := [], s;
      EmptyRun(s);
    } else {
      var a, u := FinishesAlone(s, ids[0], raises);
      var b;
      b, t := AllFinish(u, ids[1..], raises);
      RunsJoin(s, a, u, b, t);
      steps := a + b;
      forall k | 0 <= k < |ids| ensures t.threads[ids[k]].Idle? {
        assert k > 0 ==> ids[k] == ids[1..][k - 1];
      }
    }
  }

  lemma HolderIsThread(s: State)
    requires Inv(s) && s.lock.Some?
    ensures s.lock.value in s.threads
  {
  }

  /** From every reachable state all calls can come to their end, one after the other, whether anything raises or not. */
  lemma EveryCallCanEnd(wellFormed: Url -> bool, pids: set<int>, before: seq<Step>, s: State, ids: seq<int>, raises: bool)
    returns (steps: seq<Step>, t: State)
    requires Runs(Init(wellFormed, pids), before, s) && forall k :: 0 <= k < |ids| ==> ids[k] in s.threads
    ensures Runs(s, steps, t) && Settles(s, t)
    ensures forall k :: 0 <= k < |ids| ==> t.threads[ids[k]].Idle?
  {
    hide Enabled, Next, Inv;
    InitInv(wellFormed, pids);
    RunKeepsInv(Init(wellFormed, pids), before, s);
    if s.lock.Some? {
      HolderIsThread(s);
      var a, u := FinishesAlone(s, s.lock.value, raises);
      var b;
      b, t := AllFinish(u, ids, raises);
      RunsJoin(s, a, u, b, t);
      steps := a + b;
    } else {
      steps, t := AllFinish(s, ids, raises);
    }
  }

  /** The cached engines in some order. */
  lemma {:induction false} ListOf(cache: map<Url, nat>) returns (order: seq<nat>)
    ensures Distinct(order) && (forall u :: u in cache ==> cache[u] in order) && (forall e :: e in order ==> e in cache.Values)
    decreases |cache|
  {
    if cache == map[] {
      return [];
    }
    var u :| u in cache;
    var rest := cache - {u};
    order := ListOf(rest);
    assert forall e :: e in rest.Values ==> e in cache.Values;
    if cache[u] !in order {
      order := order + [cache[u]];
    }
    assert cache[u] in cache.Values;
    assert forall v :: v in cache && v != u ==> v in rest && rest[v] == cache[v];
  }

  // ---------------------------------------------------------------- a run that skips an engine

  lemma {:induction false} OneMore(s: State, steps: seq<Step>, t: State, step: Step)
    requires Runs(s, steps, t) && Enabled(t, step)
    ensures Runs(s, steps + [step], Next(t, step))
    decreases |steps|
  {
    hide Next, Enabled;
    if steps == [] {
      assert ([step])[1..] == [];
      assert steps + [step] == [step];
    } else {
      OneMore(Next(s, steps[0]), steps[1..], t, step);
      assert (steps + [step])[1..] == steps[1..] + [step];
    }
  }

  lemma TakeStep(s: State, steps: seq<Step>, t: State, step: Step) returns (more: seq<Step>, u: State)
    requires Runs(s, steps, t) && Enabled(t, step)
    ensures Runs(s, more, u) && u == Next(t, step)
  {
    OneMore(s, steps, t, step);
    more, u := steps + [step], Next(t, step);
  }

  /** How a state comes from another when only thread `p` has moved, to `pc`. */
  ghost predicate MovedTo(s: State, t: State, p: int, pc: Pc) {
    t.threads == s.threads[p := pc] && t.wellFormed == s.wellFormed && t.called == s.called
  }

  ghost predicate SameCaches(s: State, t: State) {
    t.cache == s.cache && t.masked == s.masked && t.created == s.created && t.places == s.places
  }

  lemma GetMisses(s: State, steps: seq<Step>, t: State, p: int, url: Url) returns (more: seq<Step>, u: State)
    requires Runs(s, steps, t) && p in t.threads && t.threads[p] == Idle && t.lock == None && url !in t.cache
    ensures Runs(s, more, u) && MovedTo(t, u, p, Masking(url)) && SameCaches(t, u) && u.lock == Some(p)
  {
    hide Runs, Relocate, AfterRaise, ListsCache;
    more, u := TakeStep(s, steps, t, BeginGet(p, url));
    more, u := TakeStep(s, more, u, FastGet(p));
    more, u := TakeStep(s, more, u, LockToGet(p));
    more, u := TakeStep(s, more, u, Check(p));
  }

  lemma GetCreates(s: State, steps: seq<Step>, t: State, p: int, url: Url) returns (more: seq<Step>, u: State)
    requires Runs(s, steps, t) && p in t.threads && t.threads[p] == Masking(url) && t.wellFormed(url)
    ensures Runs(s, more, u) && MovedTo(t, u, p, Fetching(url)) && u.lock == t.lock
    ensures u.cache == t.cache[url := t.created] && u.masked == t.masked + {url} && u.created == t.created + 1
    ensures u.places == t.places[t.created := Cached(url)]
  {
    hide Runs, Relocate, AfterRaise, ListsCache;
    more, u := TakeStep(s, steps, t, Mask(p));
    more, u := TakeStep(s, more, u, Create(p));
    more, u := TakeStep(s, more, u, Record(p));
  }

  lemma GetReturns(s: State, steps: seq<Step>, t: State, p: int, url: Url) returns (more: seq<Step>, u: State)
    requires Runs(s, steps, t) && p in t.threads && t.threads[p] == Fetching(url) && url in t.cache
    ensures Runs(s, more, u) && MovedTo(t, u, p, Idle) && SameCaches(t, u) && u.lock == None
  {
    hide Runs, Relocate, AfterRaise, ListsCache;
    more, u := TakeStep(s, steps, t, Fetch(p));
    more, u := TakeStep(s, more, u, Release(p));
    more, u := TakeStep(s, more, u, EndGet(p));
  }

  /** One thread gets an engine that is not cached, with nobody else about. */
  lemma GetsNewEngine(s: State, steps: seq<Step>, t: State, p: int, url: Url) returns (more: seq<Step>, u: State)
    requires Runs(s, steps, t) && p in t.threads && t.threads[p] == Idle && t.lock == None
    requires url !in t.cache && t.wellFormed(url)
    ensures Runs(s, more, u) && MovedTo(t, u, p, Idle) && u.lock == None
    ensures u.cache == t.cache[url := t.created] && u.created == t.created + 1
  {
    hide Runs, Next, Enabled;
    more, u := GetMisses(s, steps, t, p, url);
    more, u := GetCreates(s, more, u, p, url);
    more, u := GetReturns(s, more, u, p, url);
  }

  lemma ClearsCache(s: State, steps: seq<Step>, t: State, p: int, order: seq<nat>) returns (more: seq<Step>, u: State)
    requires Runs(s, steps, t) && p in t.threads && t.threads[p] == Idle && t.lock == None && ListsCache(t, order)
    ensures Runs(s, more, u) && MovedTo(t, u, p, ClearingUrls(order)) && u.cache == map[] && u.created == t.created
  {
    hide Runs, Relocate, AfterRaise, ListsCache;
    more, u := TakeStep(s, steps, t, BeginClear(p));
    more, u := TakeStep(s, more, u, LockToClear(p));
    SameListing(t, u, order);
    more, u := TakeStep(s, more, u, Clear(p, order));
  }

  lemma LeavesLock(s: State, steps: seq<Step>, t: State, p: int, order: seq<nat>) returns (more: seq<Step>, u: State)
    requires Runs(s, steps, t) && p in t.threads && t.threads[p] == ClearingUrls(order)
    ensures Runs(s, more, u) && MovedTo(t, u, p, Disposing(order)) && u.cache == t.cache && u.created == t.created
  {
    hide Runs, Relocate, AfterRaise, ListsCache;
    more, u := TakeStep(s, steps, t, ClearUrls(p));
    more, u := TakeStep(s, more, u, Unlock(p));
  }

  lemma SameListing(t: State, u: State, order: seq<nat>)
    requires ListsCache(t, order) && u.cache == t.cache
    ensures ListsCache(u, order)
  {
  }

  lemma RaisesFirst(s: State, steps: seq<Step>, t: State, p: int, order: seq<nat>) returns (more: seq<Step>, u: State)
    requires Runs(s, steps, t) && p in t.threads && t.threads[p] == Disposing(order) && order != []
    ensures Runs(s, more, u) && u.threads == t.threads[p := Idle] && u.cache == t.cache && u.created == t.created
    ensures u.called == t.called + [order[0]]
  {
    hide Runs, Relocate, AfterRaise, ListsCache;
    more, u := TakeStep(s, steps, t, DisposeRaises(p));
  }

  /** Two engines are cached, the `dispose()` of the first raises, and the second is neither cached nor ever disposed. */
  lemma OneRaiseCanSkip(one: Url, two: Url) returns (steps: seq<Step>, t: State)
    requires one != two
    ensures Runs(Init(_ => true, {0}), steps, t) && forall p :: p in t.threads ==> t.threads[p].Idle?
    ensures t.created == 2 && t.cache == map[] && t.called == [0]
  {
    hide Runs, Next, Enabled, ListsCache;
    var s := Init(_ => true, {0});
    EmptyRun(s);
    steps, t := GetsNewEngine(s, [], s, 0, one);
    steps, t := GetsNewEngine(s, steps, t, 0, two);
    assert t.cache == map[one := 0, two := 1];
    TwoAreListed(t, one, two);
    steps, t := ClearsCache(s, steps, t, 0, [0, 1]);
    steps, t := LeavesLock(s, steps, t, 0, [0, 1]);
    steps, t := RaisesFirst(s, steps, t, 0, [0, 1]);
  }

  lemma EmptyRun(s: State)
    ensures Runs(s, [], s)
  {
  }

  lemma TwoAreListed(t: State, one: Url, two: Url)
    requires one != two && t.cache == map[one := 0, two := 1]
    ensures ListsCache(t, [0, 1])
  {
    assert t.cache[one] == 0 && t.cache[two] == 1;
    assert 0 in t.cache.Values && 1 in t.cache.Values;
  }
}
