/**
 The single-flight fetch (src/async_resolver.rs, `singleflight_fetch`) for one key, as a transition
 system: any number of callers, each step one lock-protected or channel action, in any interleaving.
 Dropping a task at an await point is a `Cancel` step.
 */
module SingleFlight {
  import opened Options

  datatype FetchResult = Ok(packument: string) | Err(message: string)

  /** A watch channel: `Pending`, then `Done` with the producer's result. */
  datatype FetchState = Pending | Done(result: FetchResult)

  /**
   An in-flight entry: the channel's state, the caller that created it, and the callers holding a
   reference to it. The in-flight map holds one more while the entry is registered.
   */
  datatype Entry = Entry(state: FetchState, owner: nat, holders: set<nat>)

  datatype Route = FromCache | Produced(entry: nat) | Joined(entry: nat)

  datatype Phase =
    | Checking(left: nat)                              // looking into `packument_cache`
    | Entering                                         // about to take the in-flight map lock
    | Fetching(entry: nat)                             // producer, on the network
    | Fetched(entry: nat, result: FetchResult)         // producer, about to fill the cache
    | Filled(entry: nat, result: FetchResult)          // producer, about to publish
    | Published(entry: nat, result: FetchResult)       // producer, about to clear the map
    | Peeking(entry: nat)                              // waiter, fast done-check
    | Waiting(entry: nat)                              // waiter, blocked on the channel
    | Orphaned                                         // waiter whose sender closed
    | Returned(result: FetchResult, route: Route)
    | Cancelled

  datatype State = State(
    callers: map<nat, Phase>,
    entries: seq<Entry>,
    inFlight: Option<nat>,
    cache: Option<string>,
    /** History: how each entry's fetch ended. */
    fetched: map<nat, FetchResult>)

  const INIT := State(map[], [], None, None, map[])

  datatype Step =
    | Arrive(caller: nat, checks: nat)
    | CheckCache(caller: nat)
    | Join(caller: nat)
    | EndFetch(caller: nat, result: FetchResult)
    | FillCache(caller: nat)
    | Publish(caller: nat)
    | ClearInFlight(caller: nat)
    | Peek(caller: nat)
    | Wake(caller: nat)
    | SeeClosed(caller: nat)
    | Cancel(caller: nat)

  predicate IsProducer(phase: Phase)
  {
    phase.Fetching? || phase.Fetched? || phase.Filled? || phase.Published?
  }

  predicate IsWaiter(phase: Phase)
  {
    phase.Peeking? || phase.Waiting?
  }

  predicate Finished(phase: Phase)
  {
    phase.Returned? || phase.Cancelled?
  }

  /** Both ends of the channel live in the entry: it is dropped, and the sender with it, when the last reference goes. */
  predicate SenderClosed(s: State, entry: nat)
    requires entry < |s.entries|
  {
    s.inFlight != Some(entry) && s.entries[entry].holders == {}
  }

  ghost predicate Enabled(s: State, step: Step)
  {
    match step
    case Arrive(c, checks) => c !in s.callers && 1 <= checks <= 2
    case Cancel(c) => c in s.callers && !Finished(s.callers[c])
    case CheckCache(c) => c in s.callers && s.callers[c].Checking?
    case Join(c) => c in s.callers && s.callers[c].Entering? && (s.inFlight.Some? ==> s.inFlight.value < |s.entries|)
    case EndFetch(c, _) => c in s.callers && s.callers[c].Fetching?
    case FillCache(c) => c in s.callers && s.callers[c].Fetched?
    case Publish(c) => c in s.callers && s.callers[c].Filled? && s.callers[c].entry < |s.entries|
    case ClearInFlight(c) => c in s.callers && s.callers[c].Published?
    case Peek(c) => c in s.callers && s.callers[c].Peeking? && s.callers[c].entry < |s.entries|
    case Wake(c) =>
      && c in s.callers && s.callers[c].Waiting? && s.callers[c].entry < |s.entries|
      && s.entries[s.callers[c].entry].state.Done?
    case SeeClosed(c) =>
      c in s.callers && s.callers[c].Waiting? && s.callers[c].entry < |s.entries| && SenderClosed(s, s.callers[c].entry)
  }

  function Move(s: State, c: nat, phase: Phase): State
  {
    s.(callers := s.callers[c := phase])
  }

  function Hold(s: State, c: nat, e: nat): State
    requires e < |s.entries|
  {
    s.(entries := s.entries[e := s.entries[e].(holders := s.entries[e].holders + {c})])
  }

  /** A caller that returns or is cancelled drops the reference it has. */
  function Release(s: State, c: nat): State
    requires c in s.callers
  {
    var phase := s.callers[c];
    if (IsProducer(phase) || IsWaiter(phase)) && phase.entry < |s.entries| then
      s.(entries := s.entries[phase.entry := s.entries[phase.entry].(holders := s.entries[phase.entry].holders - {c})])
    else s
  }

  ghost function Do(s: State, step: Step): State
    requires Enabled(s, step)
  {
    match step
    case Arrive(c, checks) => Move(s, c, Checking(checks))
    case Cancel(c) => Move(Release(s, c), c, Cancelled)
    case CheckCache(c) =>
      var left := s.callers[c].left;
      if s.cache.Some? then Move(s, c, Returned(Ok(s.cache.value), FromCache))
      else Move(s, c, if left > 1 then Checking(left - 1) else Entering)
    case Join(c) =>
      if s.inFlight.Some? then Move(Hold(s, c, s.inFlight.value), c, Peeking(s.inFlight.value))
      else
        var e := |s.entries|;
        Move(s, c, Fetching(e)).(entries := s.entries + [Entry(Pending, c, {c})], inFlight := Some(e))
    case EndFetch(c, result) =>
      var e := s.callers[c].entry;
      Move(s, c, Fetched(e, result)).(fetched := s.fetched[e := result])
    case FillCache(c) =>
      var Fetched(e, result) := s.callers[c];
      Move(s, c, Filled(e, result)).(cache := if result.Ok? && s.cache.None? then Some(result.packument) else s.cache)
    case Publish(c) =>
      var Filled(e, result) := s.callers[c];
      Move(s, c, Published(e, result)).(entries := s.entries[e := s.entries[e].(state := Done(result))])
    case ClearInFlight(c) =>
      var Published(e, result) := s.callers[c];
      Move(Release(s, c), c, Returned(result, Produced(e))).(inFlight := None)
    case Peek(c) =>
      var e := s.callers[c].entry;
      if s.entries[e].state.Done? then Move(Release(s, c), c, Returned(s.entries[e].state.result, Joined(e)))
      else Move(s, c, Waiting(e))
    case Wake(c) =>
      var e := s.callers[c].entry;
      Move(Release(s, c), c, Returned(s.entries[e].state.result, Joined(e)))
    case SeeClosed(c) => Move(s, c, Orphaned).(inFlight := None)
  }

  // ---------------------------------------------------------------- the invariant

  /** `c` created entry `e`, still holds it, and the channel shows `state`. */
  predicate Produces(s: State, c: nat, e: nat, state: FetchState)
  {
    e < |s.entries| && s.entries[e].state == state && s.entries[e].owner == c && c in s.entries[e].holders
  }

  /** What a single caller's phase says about the shared state. */
  ghost predicate PhaseFits(s: State, c: nat, phase: Phase)
  {
    match phase
    case Checking(left) => left > 0
    case Entering => true
    case Fetching(e) => Produces(s, c, e, Pending) && s.inFlight == Some(e) && e !in s.fetched
    case Fetched(e, r) => Produces(s, c, e, Pending) && s.inFlight == Some(e) && e in s.fetched && s.fetched[e] == r
    case Filled(e, r) => Produces(s, c, e, Pending) && s.inFlight == Some(e) && e in s.fetched && s.fetched[e] == r
    case Published(e, r) => Produces(s, c, e, Done(r)) && s.inFlight == Some(e) && e in s.fetched && s.fetched[e] == r
    case Peeking(e) => e < |s.entries| && c in s.entries[e].holders
    case Waiting(e) => e < |s.entries| && c in s.entries[e].holders
    case Orphaned => false
    case Returned(r, FromCache) => r.Ok? && s.cache == Some(r.packument)
    case Returned(r, Produced(e)) => e < |s.entries| && s.entries[e].owner == c && e in s.fetched && s.fetched[e] == r
    case Returned(r, Joined(e)) => e < |s.entries| && e in s.fetched && s.fetched[e] == r
    case Cancelled => true
  }

  predicate Uses(phase: Phase, e: nat)
  {
    (IsProducer(phase) || IsWaiter(phase)) && phase.entry == e
  }

  ghost predicate OwnerFits(s: State, e: nat)
    requires e < |s.entries| && s.entries[e].owner in s.callers
  {
    var owner := s.callers[s.entries[e].owner];
    && ((IsProducer(owner) && owner.entry == e) || owner == Cancelled || (owner.Returned? && owner.route == Produced(e)))
    && (s.entries[e].state.Done? ==> e in s.fetched && s.fetched[e] == s.entries[e].state.result)
    && (owner.Returned? ==> s.entries[e].state.Done?)
  }

  ghost predicate EntryFits(s: State, e: nat)
    requires e < |s.entries|
  {
    && s.entries[e].owner in s.callers && OwnerFits(s, e)
    && forall c :: c in s.entries[e].holders ==> c in s.callers && Uses(s.callers[c], e)
  }

  ghost predicate Inv(s: State)
  {
    && (forall c :: c in s.callers ==> PhaseFits(s, c, s.callers[c]))
    && (forall e: nat :: e < |s.entries| ==> EntryFits(s, e))
    && (forall e :: e in s.fetched ==> e < |s.entries|)
    && (s.inFlight.Some? ==> s.inFlight.value < |s.entries|)
    && (s.cache.Some? ==> exists e :: e in s.fetched && s.fetched[e] == Ok(s.cache.value))
  }

  lemma InitInv()
    ensures Inv(INIT)
  {
  }

  /** The caller that moved is where its new phase says. */
  lemma MoverPhase(s: State, step: Step)
    requires Inv(s) && Enabled(s, step)
    ensures PhaseFits(Do(s, step), step.caller, Do(s, step).callers[step.caller])
  {
    if step.caller in s.callers {
      assert PhaseFits(s, step.caller, s.callers[step.caller]);
    }
    if step.Peek? || step.Wake? {
      assert EntryFits(s, s.callers[step.caller].entry);
    }
  }

  /** Entries keep their owner; their channel is only touched by the owner, their references only by the holder. */
  ghost predicate EntriesEffect(s: State, s': State, m: nat)
  {
    && |s.entries| <= |s'.entries|
    && forall e: nat :: e < |s.entries| ==>
         && s'.entries[e].owner == s.entries[e].owner
         && (s.entries[e].owner != m ==> s'.entries[e].state == s.entries[e].state)
         && forall c :: c != m ==> (c in s'.entries[e].holders <==> c in s.entries[e].holders)
  }

  /** The rest of the reach of one step by `m`. */
  ghost predicate SharedEffect(s: State, s': State, m: nat)
  {
    && (forall c :: c in s.callers && c != m ==> c in s'.callers && s'.callers[c] == s.callers[c])
    && (forall e: nat :: e < |s.entries| && s.entries[e].owner != m ==> (e in s'.fetched <==> e in s.fetched))
    && (s.inFlight.Some? && s'.inFlight != s.inFlight ==> s.inFlight.value < |s.entries| && s.entries[s.inFlight.value].owner == m)
    && (forall e :: e in s.fetched ==> e in s'.fetched && s'.fetched[e] == s.fetched[e])
    && (s.cache.Some? ==> s'.cache == s.cache)
  }

  lemma StepEffect(s: State, step: Step)
    requires Inv(s) && Enabled(s, step)
    ensures EntriesEffect(s, Do(s, step), step.caller) && SharedEffect(s, Do(s, step), step.caller)
  {
    hide Inv, EntryFits, EntriesEffect, SharedEffect, Do, Enabled, PhaseFits;
    Known(s, step);
    StepOnEntries(s, step);
    StepOnShared(s, step);
  }

  lemma ReleaseOnEntries(s: State, c: nat)
    requires c in s.callers
    ensures EntriesEffect(s, Release(s, c), c) && Release(s, c) == s.(entries := Release(s, c).entries)
  {
  }

  lemma StepOnEntries(s: State, step: Step)
    requires Enabled(s, step) && (step.caller in s.callers ==> PhaseFits(s, step.caller, s.callers[step.caller]))
    ensures EntriesEffect(s, Do(s, step), step.caller)
  {
    hide Release, SharedEffect;
    if step.caller in s.callers {
      ReleaseOnEntries(s, step.caller);
    }
  }

  lemma StepOnShared(s: State, step: Step)
    requires Enabled(s, step) && (step.caller in s.callers ==> PhaseFits(s, step.caller, s.callers[step.caller]))
    ensures SharedEffect(s, Do(s, step), step.caller)
  {
    hide Release, EntriesEffect;
    if step.caller in s.callers {
      ReleaseOnEntries(s, step.caller);
    }
  }

  /** What the invariant says of the caller that moves. */
  lemma Known(s: State, step: Step)
    requires Inv(s) && Enabled(s, step)
    ensures step.caller in s.callers ==> PhaseFits(s, step.caller, s.callers[step.caller])
    ensures s.inFlight.Some? ==> s.inFlight.value < |s.entries|
    ensures forall e :: e in s.fetched ==> e < |s.entries|
  {
  }

  /** What the invariant says of an entry and its owner. */
  lemma KnownEntry(s: State, e: nat)
    requires Inv(s) && e < |s.entries|
    ensures s.entries[e].owner in s.callers && OwnerFits(s, e)
    ensures PhaseFits(s, s.entries[e].owner, s.callers[s.entries[e].owner])
  {
    assert EntryFits(s, e);
  }

  /** Nobody else's phase is disturbed. */
  lemma BystanderPhase(s: State, step: Step, c: nat)
    requires Inv(s) && Enabled(s, step) && c in s.callers && c != step.caller
    ensures c in Do(s, step).callers && PhaseFits(Do(s, step), c, Do(s, step).callers[c])
  {
    hide Do, Enabled, EntryFits;
    StepEffect(s, step);
    assert PhaseFits(s, c, s.callers[c]);
  }

  /** The mover uses an entry afterwards exactly when that entry lists it. */
  lemma MoverHolds(s: State, step: Step, e: nat)
    requires Inv(s) && Enabled(s, step) && e < |Do(s, step).entries| && step.caller in Do(s, step).entries[e].holders
    ensures Uses(Do(s, step).callers[step.caller], e)
  {
    if e < |s.entries| {
      assert EntryFits(s, e);
    }
    if step.caller in s.callers {
      assert PhaseFits(s, step.caller, s.callers[step.caller]);
    }
  }

  /** The owner of an entry: still at work on it, or cancelled, or back with it published. */
  lemma StepOwner(s: State, step: Step, e: nat)
    requires Inv(s) && Enabled(s, step) && e < |Do(s, step).entries|
    ensures var s' := Do(s, step);
            && s'.entries[e].owner in s'.callers && OwnerFits(s', e)
  {
    hide Inv, EntryFits;
    Known(s, step);
    if e < |s.entries| {
      KnownEntry(s, e);
      if s.entries[e].owner != step.caller {
        UnmovedOwner(s, step, e);
      }
    }
  }

  lemma UnmovedOwner(s: State, step: Step, e: nat)
    requires Inv(s) && Enabled(s, step) && e < |s.entries| && s.entries[e].owner != step.caller
    ensures var s' := Do(s, step);
            e < |s'.entries| && s'.entries[e].owner in s'.callers && OwnerFits(s', e)
  {
    hide Inv, EntryFits, Do, Enabled;
    StepEffect(s, step);
    KnownEntry(s, e);
  }

  lemma StepEntry(s: State, step: Step, e: nat)
    requires Inv(s) && Enabled(s, step) && e < |Do(s, step).entries|
    ensures EntryFits(Do(s, step), e)
  {
    hide Do, Enabled, PhaseFits, OwnerFits;
    var s' := Do(s, step);
    StepEffect(s, step);
    StepOwner(s, step, e);
    forall c | c in s'.entries[e].holders
      ensures c in s'.callers && Uses(s'.callers[c], e)
    {
      if c == step.caller {
        MoverIsCaller(s, step);
        MoverHolds(s, step, e);
      } else {
        OthersHold(s, step, e, c);
      }
    }
  }

  lemma MoverIsCaller(s: State, step: Step)
    requires Enabled(s, step)
    ensures step.caller in Do(s, step).callers
  {
  }

  lemma OthersHold(s: State, step: Step, e: nat, c: nat)
    requires Inv(s) && Enabled(s, step) && e < |Do(s, step).entries| && c in Do(s, step).entries[e].holders && c != step.caller
    ensures e < |s.entries| && c in s.entries[e].holders
    ensures c in Do(s, step).callers && Uses(Do(s, step).callers[c], e)
  {
    hide PhaseFits, OwnerFits;
    StepEffect(s, step);
    assert e < |s.entries|;
    assert EntryFits(s, e);
  }

  lemma StepCache(s: State, step: Step)
    requires Inv(s) && Enabled(s, step)
    ensures var s' := Do(s, step);
            s'.cache.Some? ==> exists e :: e in s'.fetched && s'.fetched[e] == Ok(s'.cache.value)
  {
    var s' := Do(s, step);
    if step.caller in s.callers {
      assert PhaseFits(s, step.caller, s.callers[step.caller]);
    }
    if s.cache.Some? {
      var e :| e in s.fetched && s.fetched[e] == Ok(s.cache.value);
      assert e in s'.fetched && s'.fetched[e] == s.fetched[e];
    } else if step.FillCache? {
      var e := s.callers[step.caller].entry;
      assert e in s'.fetched && s'.fetched[e] == s.callers[step.caller].result;
    }
  }

  lemma StepInv(s: State, step: Step)
    requires Inv(s) && Enabled(s, step)
    ensures Inv(Do(s, step))
  {
    var s' := Do(s, step);
    StepCache(s, step);
    forall c | c in s'.callers
      ensures PhaseFits(s', c, s'.callers[c])
    {
      if c == step.caller {
        MoverPhase(s, step);
      } else {
        BystanderPhase(s, step, c);
      }
    }
    forall e: nat | e < |s'.entries|
      ensures EntryFits(s', e)
    {
      StepEntry(s, step, e);
    }
    if step.caller in s.callers {
      assert PhaseFits(s, step.caller, s.callers[step.caller]);
    }
  }

  // ---------------------------------------------------------------- whole runs

  ghost predicate Execution(states: seq<State>, steps: seq<Step>)
  {
    && |states| == |steps| + 1 && states[0] == INIT
    && forall i :: 0 <= i < |steps| ==> Enabled(states[i], steps[i]) && states[i + 1] == Do(states[i], steps[i])
  }

  lemma {:induction false} ExecutionInv(states: seq<State>, steps: seq<Step>, i: nat)
    requires Execution(states, steps) && i < |states|
    ensures Inv(states[i])
  {
    if i == 0 {
      InitInv();
    } else {
      ExecutionInv(states, steps, i - 1);
      StepInv(states[i - 1], steps[i - 1]);
    }
  }

  /** At every moment of every run at most one caller is producing, hence at most one is fetching. */
  lemma OneProducer(states: seq<State>, steps: seq<Step>, i: nat, c: nat, d: nat)
    requires Execution(states, steps) && i < |states|
    requires c in states[i].callers && IsProducer(states[i].callers[c])
    requires d in states[i].callers && IsProducer(states[i].callers[d])
    ensures c == d
  {
    ExecutionInv(states, steps, i);
    var s := states[i];
    assert PhaseFits(s, c, s.callers[c]) && PhaseFits(s, d, s.callers[d]);
  }

  /** A registered or used entry is alive: its sender is closed exactly when the map and all callers let go. */
  lemma ClosedIff(states: seq<State>, steps: seq<Step>, i: nat, e: nat)
    requires Execution(states, steps) && i < |states| && e < |states[i].entries|
    ensures SenderClosed(states[i], e) <==>
              states[i].inFlight != Some(e) && forall c :: c in states[i].callers ==> !Uses(states[i].callers[c], e)
  {
    ExecutionInv(states, steps, i);
    var s := states[i];
    assert EntryFits(s, e);
    forall c | c in s.callers && Uses(s.callers[c], e)
      ensures c in s.entries[e].holders
    {
      assert PhaseFits(s, c, s.callers[c]);
    }
    if s.entries[e].holders != {} {
      var c :| c in s.entries[e].holders;
      assert Uses(s.callers[c], e);
    }
  }

  /**
   No waiter ever finds its channel closed, so the re-fetch fallback is never taken: the waiter's
   own reference keeps the sender alive, whatever happens to the producer.
   */
  lemma SenderNeverCloses(states: seq<State>, steps: seq<Step>, i: nat, c: nat)
    requires Execution(states, steps) && i < |states| && c in states[i].callers
    ensures states[i].callers[c] != Orphaned && !Enabled(states[i], SeeClosed(c))
    ensures IsWaiter(states[i].callers[c]) ==>
              states[i].callers[c].entry < |states[i].entries| && !SenderClosed(states[i], states[i].callers[c].entry)
  {
    ExecutionInv(states, steps, i);
    var s := states[i];
    assert PhaseFits(s, c, s.callers[c]);
  }

  /** Once written, the cache, each channel and each fetch outcome never change again. */
  ghost predicate WriteOnce(a: State, b: State)
  {
    && (a.cache.Some? ==> b.cache == a.cache)
    && |a.entries| <= |b.entries|
    && (forall e: nat :: e < |a.entries| ==>
          b.entries[e].owner == a.entries[e].owner && (a.entries[e].state.Done? ==> b.entries[e].state == a.entries[e].state))
    && (forall e :: e in a.fetched ==> e in b.fetched && b.fetched[e] == a.fetched[e])
    && (forall c :: c in a.callers && a.callers[c].Returned? ==> c in b.callers && b.callers[c] == a.callers[c])
  }

  lemma StepWritesOnce(s: State, step: Step)
    requires Inv(s) && Enabled(s, step)
    ensures WriteOnce(s, Do(s, step))
  {
    hide Inv, EntryFits;
    Known(s, step);
  }

  lemma WriteOnceTransitive(a: State, b: State, c: State)
    requires WriteOnce(a, b) && WriteOnce(b, c)
    ensures WriteOnce(a, c)
  {
  }

  lemma {:induction false} RunWritesOnce(states: seq<State>, steps: seq<Step>, i: nat, j: nat)
    requires Execution(states, steps) && i <= j < |states|
    ensures WriteOnce(states[i], states[j])
    decreases j - i
  {
    hide Do, Enabled, Inv;
    if i < j {
      RunWritesOnce(states, steps, i, j - 1);
      ExecutionInv(states, steps, j - 1);
      StepWritesOnce(states[j - 1], steps[j - 1]);
      WriteOnceTransitive(states[i], states[j - 1], states[j]);
    }
  }

  /** Every entry is published by at most one step of the run. */
  lemma PublishedOnce(states: seq<State>, steps: seq<Step>, i: nat, j: nat)
    requires Execution(states, steps) && i < j < |steps| && steps[i].Publish? && steps[j].Publish?
    ensures states[i].callers[steps[i].caller].entry != states[j].callers[steps[j].caller].entry
  {
    RunWritesOnce(states, steps, i + 1, j);
    ExecutionInv(states, steps, j);
    assert PhaseFits(states[j], steps[j].caller, states[j].callers[steps[j].caller]);
  }

  /** How a caller may return: a waiter with its producer's result, a producer with its own. */
  lemma ReturnsProducersResult(states: seq<State>, steps: seq<Step>, i: nat, c: nat)
    requires Execution(states, steps) && i < |states| && c in states[i].callers && states[i].callers[c].Returned?
    ensures var s, phase := states[i], states[i].callers[c];
            match phase.route
            case FromCache => exists e :: e in s.fetched && s.fetched[e] == phase.result && phase.result.Ok?
            case Produced(e) => e in s.fetched && s.fetched[e] == phase.result && e < |s.entries| && s.entries[e].owner == c
            case Joined(e) => e in s.fetched && s.fetched[e] == phase.result
  {
    ExecutionInv(states, steps, i);
    var s := states[i];
    assert PhaseFits(s, c, s.callers[c]);
  }

  /** A cached packument is the result of a successful fetch, at every later moment the same one. */
  lemma CachedIsFetched(states: seq<State>, steps: seq<Step>, i: nat, j: nat)
    requires Execution(states, steps) && i <= j < |states| && states[i].cache.Some?
    ensures exists e :: e in states[i].fetched && states[i].fetched[e] == Ok(states[i].cache.value)
    ensures states[j].cache == states[i].cache
  {
    ExecutionInv(states, steps, i);
    RunWritesOnce(states, steps, i, j);
  }

  // ---------------------------------------------------------------- a success is cached

  predicate Success(phase: Phase)
  {
    match phase
    case Filled(_, r) => r.Ok?
    case Published(_, r) => r.Ok?
    case Returned(r, _) => r.Ok?
    case _ => false
  }

  /** Past its cache write a success is in the cache, and so is whatever a channel shows as one. */
  ghost predicate SuccessCached(s: State)
  {
    && (forall c :: c in s.callers && Success(s.callers[c]) ==> s.cache.Some?)
    && (forall e: nat :: e < |s.entries| && s.entries[e].state.Done? && s.entries[e].state.result.Ok? ==> s.cache.Some?)
  }

  lemma StepSuccessCached(s: State, step: Step)
    requires SuccessCached(s) && Enabled(s, step)
    ensures SuccessCached(Do(s, step))
  {
  }

  lemma {:induction false} SuccessIsCached(states: seq<State>, steps: seq<Step>, i: nat)
    requires Execution(states, steps) && i < |states|
    ensures SuccessCached(states[i])
  {
    hide Do, Enabled;
    if i > 0 {
      SuccessIsCached(states, steps, i - 1);
      StepSuccessCached(states[i - 1], steps[i - 1]);
    }
  }

  /** The first success to be filled in is what is cached from then on. */
  lemma FirstFillIsCached(states: seq<State>, steps: seq<Step>, i: nat, j: nat, p: string)
    requires Execution(states, steps) && i < j < |states| && steps[i].FillCache? && states[i].cache.None?
    requires states[i].callers[steps[i].caller].result == Ok(p)
    ensures states[j].cache == Some(p)
  {
    RunWritesOnce(states, steps, i + 1, j);
  }

  /** Where a caller can be that arrived when `p` was cached. */
  predicate ServedFromCache(phase: Phase, p: string)
  {
    phase.Checking? || phase.Cancelled? || phase == Returned(Ok(p), FromCache)
  }

  lemma StepServed(s: State, step: Step, c: nat, p: string)
    requires Enabled(s, step) && s.cache == Some(p) && (c in s.callers ==> ServedFromCache(s.callers[c], p))
    ensures c in Do(s, step).callers ==> ServedFromCache(Do(s, step).callers[c], p)
  {
  }

  /** With a packument cached, whoever arrives later never fetches and never waits: it returns the cached one. */
  lemma {:induction false} LaterCallersUseCache(states: seq<State>, steps: seq<Step>, i: nat, j: nat, c: nat)
    requires Execution(states, steps) && i <= j < |states| && states[i].cache.Some? && c !in states[i].callers
    ensures c in states[j].callers ==> ServedFromCache(states[j].callers[c], states[i].cache.value)
    decreases j - i
  {
    hide Do, Enabled;
    if i < j {
      LaterCallersUseCache(states, steps, i, j - 1, c);
      RunWritesOnce(states, steps, i, j - 1);
      StepServed(states[j - 1], steps[j - 1], c, states[i].cache.value);
    }
  }

  /** In particular after any caller has returned a success, its own or a shared one. */
  lemma SuccessServesLaterCallers(states: seq<State>, steps: seq<Step>, i: nat, j: nat, d: nat, c: nat)
    requires Execution(states, steps) && i <= j < |states| && c !in states[i].callers
    requires d in states[i].callers && states[i].callers[d].Returned? && states[i].callers[d].result.Ok?
    ensures states[i].cache.Some? && states[j].cache == states[i].cache
    ensures c in states[j].callers ==> ServedFromCache(states[j].callers[c], states[i].cache.value)
  {
    SuccessIsCached(states, steps, i);
    RunWritesOnce(states, steps, i, j);
    LaterCallersUseCache(states, steps, i, j, c);
  }

  // ---------------------------------------------------------------- a finished fetch is not joined again

  lemma ReturnedIsUnregistered(states: seq<State>, steps: seq<Step>, i: nat, d: nat, e: nat)
    requires Execution(states, steps) && i < |states|
    requires d in states[i].callers && states[i].callers[d].Returned? && states[i].callers[d].route == Produced(e)
    ensures e < |states[i].entries| && states[i].inFlight != Some(e)
  {
    ExecutionInv(states, steps, i);
    assert PhaseFits(states[i], d, states[i].callers[d]);
    ReturnUnregisters(states, steps, i, d, e);
  }

  lemma {:induction false} ReturnUnregisters(states: seq<State>, steps: seq<Step>, i: nat, d: nat, e: nat)
    requires Execution(states, steps) && i < |states|
    requires d in states[i].callers && states[i].callers[d].Returned? && states[i].callers[d].route == Produced(e)
    ensures states[i].inFlight != Some(e) && e < |states[i].entries|
    decreases i
  {
    hide Do, Enabled, Inv, EntryFits;
    assert i > 0;
    var s, step := states[i - 1], steps[i - 1];
    ExecutionInv(states, steps, i - 1);
    if d in s.callers && s.callers[d].Returned? {
      ReturnedStays(s, step, d);
      ReturnUnregisters(states, steps, i - 1, d, e);
      NoneRegistersOld(s, step, e);
    } else {
      ReturnClears(s, step, d, e);
    }
  }

  lemma ReturnedStays(s: State, step: Step, d: nat)
    requires Enabled(s, step) && d in s.callers && s.callers[d].Returned?
    ensures d in Do(s, step).callers && Do(s, step).callers[d] == s.callers[d]
  {
  }

  /** Only a new entry is ever put on the map. */
  lemma NoneRegistersOld(s: State, step: Step, e: nat)
    requires Enabled(s, step) && e < |s.entries| && s.inFlight != Some(e)
    ensures e < |Do(s, step).entries| && Do(s, step).inFlight != Some(e)
  {
  }

  lemma ReturnClears(s: State, step: Step, d: nat, e: nat)
    requires Inv(s) && Enabled(s, step) && (d in s.callers ==> !s.callers[d].Returned?)
    requires d in Do(s, step).callers && Do(s, step).callers[d].Returned? && Do(s, step).callers[d].route == Produced(e)
    ensures e < |Do(s, step).entries| && Do(s, step).inFlight.None?
  {
    assert step == ClearInFlight(d);
    assert PhaseFits(s, d, s.callers[d]);
  }

  lemma StepJoinsNoOld(s: State, step: Step, c: nat, e: nat)
    requires Enabled(s, step) && e < |s.entries| && s.inFlight != Some(e) && (c in s.callers ==> !Uses(s.callers[c], e))
    ensures c in Do(s, step).callers ==> !Uses(Do(s, step).callers[c], e)
    ensures c in Do(s, step).callers && Do(s, step).callers[c].Returned? && (c in s.callers ==> !s.callers[c].Returned?) ==>
              Do(s, step).callers[c].route != Joined(e)
  {
  }

  /** Whatever a fetch ended with, a caller that arrives after its producer returned never joins it or gets its result. */
  lemma {:induction false} FinishedIsNotJoined(states: seq<State>, steps: seq<Step>, i: nat, j: nat, d: nat, e: nat, c: nat)
    requires Execution(states, steps) && i <= j < |states| && c !in states[i].callers
    requires d in states[i].callers && states[i].callers[d].Returned? && states[i].callers[d].route == Produced(e)
    ensures e < |states[j].entries| && states[j].inFlight != Some(e)
    ensures c in states[j].callers ==>
              !Uses(states[j].callers[c], e) && (states[j].callers[c].Returned? ==> states[j].callers[c].route != Joined(e))
    decreases j - i
  {
    hide Do, Enabled, Inv;
    if i == j {
      ReturnedIsUnregistered(states, steps, i, d, e);
    } else {
      FinishedIsNotJoined(states, steps, i, j - 1, d, e, c);
      NoneRegistersOld(states[j - 1], steps[j - 1], e);
      StepJoinsNoOld(states[j - 1], steps[j - 1], c, e);
      if c in states[j - 1].callers && states[j - 1].callers[c].Returned? {
        ReturnedStays(states[j - 1], steps[j - 1], c);
      }
    }
  }

  /** With nothing on the map, the next caller to take the lock fetches anew: a failure is retried. */
  lemma NextCallerFetches(s: State, c: nat)
    requires Enabled(s, Join(c)) && s.inFlight.None?
    ensures var s' := Do(s, Join(c));
            && s'.callers[c] == Fetching(|s.entries|) && s'.inFlight == Some(|s.entries|)
            && s'.entries == s.entries + [Entry(Pending, c, {c})]
  {
  }

  /** A caller may arrive at any moment, looking into the cache once or twice before it takes the lock. */
  lemma ArrivesAnyTime(s: State, c: nat)
    requires c !in s.callers
    ensures Enabled(s, Arrive(c, 1)) && Enabled(s, Arrive(c, 2))
  {
  }

  // ---------------------------------------------------------------- progress

  /** An upper bound on the steps a caller still takes. */
  function Remaining(phase: Phase): nat
  {
    match phase
    case Checking(left) => left + 5
    case Entering => 5
    case Fetching(_) => 4
    case Fetched(_, _) => 3
    case Filled(_, _) => 2
    case Published(_, _) => 1
    case Peeking(_) => 2
    case Waiting(_) => 1
    case Orphaned => 0
    case Returned(_, _) => 0
    case Cancelled => 0
  }

  lemma StepUsesUp(s: State, step: Step)
    requires Inv(s) && Enabled(s, step) && !step.Arrive?
    ensures Remaining(Do(s, step).callers[step.caller]) < Remaining(s.callers[step.caller])
    ensures forall c :: c in s.callers && c != step.caller ==> Do(s, step).callers[c] == s.callers[c]
  {
    assert PhaseFits(s, step.caller, s.callers[step.caller]);
  }

  /** Nobody appears but by arriving, with at most seven steps to take. */
  lemma StepKeepsOthers(s: State, step: Step, c: nat)
    requires Enabled(s, step)
    ensures c in s.callers ==> c in Do(s, step).callers
    ensures c !in s.callers && c in Do(s, step).callers ==> step.Arrive? && step.caller == c && Remaining(Do(s, step).callers[c]) <= 7
    ensures c in s.callers && (step.caller != c || step.Arrive?) ==> Do(s, step).callers[c] == s.callers[c]
    ensures !step.Arrive? ==> step.caller in s.callers
  {
  }

  function StepsBy(steps: seq<Step>, c: nat): nat
  {
    if steps == [] then 0
    else StepsBy(steps[..|steps| - 1], c) + (if steps[|steps| - 1].caller == c && !steps[|steps| - 1].Arrive? then 1 else 0)
  }

  /** No caller takes more than seven steps in any run, so retries and waiting cannot go on forever. */
  lemma {:induction false} BoundedSteps(states: seq<State>, steps: seq<Step>, i: nat, c: nat)
    requires Execution(states, steps) && i < |states|
    ensures c in states[i].callers ==> StepsBy(steps[..i], c) + Remaining(states[i].callers[c]) <= 7
    ensures c !in states[i].callers ==> StepsBy(steps[..i], c) == 0
    decreases i
  {
    hide Inv, Do, Enabled, Remaining;
    if i > 0 {
      BoundedSteps(states, steps, i - 1, c);
      ExecutionInv(states, steps, i - 1);
      assert steps[..i][..i - 1] == steps[..i - 1];
      StepKeepsOthers(states[i - 1], steps[i - 1], c);
      if !steps[i - 1].Arrive? {
        StepUsesUp(states[i - 1], steps[i - 1]);
      }
    }
  }

  ghost predicate NoProducerCancelled(steps: seq<Step>, states: seq<State>)
    requires |states| == |steps| + 1
  {
    forall i :: 0 <= i < |steps| && steps[i].Cancel? && steps[i].caller in states[i].callers ==>
      !IsProducer(states[i].callers[steps[i].caller])
  }

  lemma OnlyCancelCancels(s: State, step: Step, c: nat)
    requires Enabled(s, step) && c in Do(s, step).callers && Do(s, step).callers[c] == Cancelled
    ensures c in s.callers && (s.callers[c] == Cancelled || step == Cancel(c))
  {
  }

  lemma NewEntryIsProduced(s: State, step: Step, e: nat)
    requires Enabled(s, step) && |s.entries| <= e < |Do(s, step).entries|
    ensures var s' := Do(s, step); s'.entries[e].owner in s'.callers && IsProducer(s'.callers[s'.entries[e].owner])
  {
  }

  /** Without cancelled producers, an unpublished entry still has its producer at work. */
  lemma {:induction false} PendingHasProducer(states: seq<State>, steps: seq<Step>, i: nat, e: nat)
    requires Execution(states, steps) && NoProducerCancelled(steps, states) && i < |states|
    requires e < |states[i].entries| && states[i].entries[e].state.Pending?
    ensures var owner := states[i].entries[e].owner;
            owner in states[i].callers && IsProducer(states[i].callers[owner])
    decreases i
  {
    hide Inv, Do, Enabled, PhaseFits, WriteOnce;
    ExecutionInv(states, steps, i);
    KnownEntry(states[i], e);
    var owner := states[i].entries[e].owner;
    var s, step := states[i - 1], steps[i - 1];
    if e < |s.entries| {
      ExecutionInv(states, steps, i - 1);
      RunWritesOnce(states, steps, i - 1, i);
      SameChannel(s, states[i], e);
      PendingHasProducer(states, steps, i - 1, e);
      if states[i].callers[owner] == Cancelled {
        OnlyCancelCancels(s, step, owner);
      }
    } else {
      NewEntryIsProduced(s, step, e);
    }
  }

  lemma SameChannel(a: State, b: State, e: nat)
    requires WriteOnce(a, b) && e < |a.entries| && e < |b.entries| && b.entries[e].state.Pending?
    ensures a.entries[e].state.Pending? && a.entries[e].owner == b.entries[e].owner
  {
  }

  ghost predicate CanMove(s: State, c: nat)
  {
    exists step :: Enabled(s, step) && step.caller == c && !step.Arrive? && !step.Cancel?
  }

  /** Without cancelled producers an unfinished caller can move, or waits on a producer that can. */
  lemma NeverStuck(states: seq<State>, steps: seq<Step>, i: nat, c: nat)
    requires Execution(states, steps) && NoProducerCancelled(steps, states) && i < |states|
    requires c in states[i].callers && !Finished(states[i].callers[c])
    ensures var s := states[i];
            CanMove(s, c) ||
            (s.callers[c].Waiting? && s.callers[c].entry < |s.entries| && CanMove(s, s.entries[s.callers[c].entry].owner))
  {
    ExecutionInv(states, steps, i);
    var s := states[i];
    assert PhaseFits(s, c, s.callers[c]);
    match s.callers[c]
    case Waiting(e) =>
      if s.entries[e].state.Done? {
        assert Enabled(s, Wake(c)) && CanMove(s, c);
      } else {
        PendingHasProducer(states, steps, i, e);
        ProducerMoves(s, s.entries[e].owner);
      }
    case Checking(_) => assert Enabled(s, CheckCache(c)) && CanMove(s, c);
    case Entering => assert Enabled(s, Join(c)) && CanMove(s, c);
    case Peeking(_) => assert Enabled(s, Peek(c)) && CanMove(s, c);
    case Fetching(_) => ProducerMoves(s, c);
    case Fetched(_, _) => ProducerMoves(s, c);
    case Filled(_, _) => ProducerMoves(s, c);
    case Published(_, _) => ProducerMoves(s, c);
  }

  lemma ProducerMoves(s: State, c: nat)
    requires Inv(s) && c in s.callers && IsProducer(s.callers[c])
    ensures CanMove(s, c)
  {
    assert PhaseFits(s, c, s.callers[c]);
    match s.callers[c]
    case Fetching(_) => assert Enabled(s, EndFetch(c, Err("")));
    case Fetched(_, _) => assert Enabled(s, FillCache(c));
    case Filled(_, _) => assert Enabled(s, Publish(c));
    case Published(_, _) => assert Enabled(s, ClearInFlight(c));
  }

  // ---------------------------------------------------------------- cancelled producers

  predicate OwnerCancelled(s: State, e: nat)
    requires e < |s.entries|
  {
    s.entries[e].owner in s.callers && s.callers[s.entries[e].owner] == Cancelled
  }

  /** The registered entry lost its producer: nobody is left to publish it or to clear the map. */
  predicate Abandoned(s: State, e: nat)
  {
    e < |s.entries| && s.inFlight == Some(e) && OwnerCancelled(s, e)
  }

  /** An unpublished entry is registered: only its producer clears the map, and only after publishing. */
  ghost predicate PendingRegistered(s: State)
  {
    forall e: nat :: e < |s.entries| && s.entries[e].state.Pending? ==> s.inFlight == Some(e)
  }

  lemma StepPendingRegistered(s: State, step: Step)
    requires Inv(s) && PendingRegistered(s) && Enabled(s, step)
    ensures PendingRegistered(Do(s, step))
  {
    if step.caller in s.callers {
      assert PhaseFits(s, step.caller, s.callers[step.caller]);
    }
  }

  lemma {:induction false} UnpublishedIsRegistered(states: seq<State>, steps: seq<Step>, i: nat)
    requires Execution(states, steps) && i < |states|
    ensures PendingRegistered(states[i])
  {
    hide Do, Enabled, Inv, PendingRegistered;
    if i == 0 {
      NothingPending();
    } else {
      UnpublishedIsRegistered(states, steps, i - 1);
      ExecutionInv(states, steps, i - 1);
      StepPendingRegistered(states[i - 1], steps[i - 1]);
    }
  }

  lemma NothingPending()
    ensures PendingRegistered(INIT)
  {
  }

  /** Cancelling a producer, at whichever point, abandons its entry. */
  lemma CancelAbandons(states: seq<State>, steps: seq<Step>, i: nat)
    requires Execution(states, steps) && i < |steps| && steps[i].Cancel?
    requires IsProducer(states[i].callers[steps[i].caller])
    ensures Abandoned(states[i + 1], states[i].callers[steps[i].caller].entry)
  {
    ExecutionInv(states, steps, i);
    assert PhaseFits(states[i], steps[i].caller, states[i].callers[steps[i].caller]);
  }

  /** What an abandoned entry holds fixed. */
  ghost predicate StaysAbandoned(a: State, b: State, e: nat)
  {
    && Abandoned(a, e) && Abandoned(b, e) && b.entries[e].state == a.entries[e].state && b.cache == a.cache
    && (forall c :: c in b.callers ==> !IsProducer(b.callers[c]))
    && (a.entries[e].state.Pending? ==>
          forall c :: c in a.callers && a.callers[c] == Waiting(e) ==>
            c in b.callers && b.callers[c] in {Waiting(e), Cancelled})
    && (forall c :: c in b.callers && c !in a.callers ==> Latecomer(b.callers[c], e, a.entries[e].state, a.cache))
  }

  /** Where a caller that arrived after the producer was cancelled can be. */
  predicate Latecomer(phase: Phase, e: nat, state: FetchState, cache: Option<string>)
  {
    match phase
    case Checking(_) => true
    case Entering => true
    case Cancelled => true
    case Peeking(f) => f == e
    case Waiting(f) => f == e
    case Returned(r, FromCache) => r.Ok? && cache == Some(r.packument)
    case Returned(r, Joined(f)) => f == e && state == Done(r)
    case _ => false
  }

  lemma NobodyProduces(s: State, e: nat)
    requires Inv(s) && Abandoned(s, e)
    ensures forall c :: c in s.callers ==> !IsProducer(s.callers[c])
  {
    forall c | c in s.callers
      ensures !IsProducer(s.callers[c])
    {
      assert PhaseFits(s, c, s.callers[c]);
    }
  }

  lemma StepStaysAbandoned(a: State, s: State, step: Step, e: nat)
    requires Inv(s) && Enabled(s, step) && StaysAbandoned(a, s, e)
    ensures StaysAbandoned(a, Do(s, step), e)
  {
    if step.caller in s.callers {
      assert PhaseFits(s, step.caller, s.callers[step.caller]);
    }
  }

  /**
   Once its producer is cancelled a registered entry stays as it is for the rest of the run: no
   producer starts, a blocked waiter waits until it is cancelled itself, and every later caller is
   served from the cache as it is or from the entry as it is, or waits too.
   */
  lemma {:induction false} AbandonedForever(states: seq<State>, steps: seq<Step>, i: nat, j: nat, e: nat)
    requires Execution(states, steps) && i <= j < |states| && Abandoned(states[i], e)
    ensures StaysAbandoned(states[i], states[j], e)
    decreases j - i
  {
    hide Do, Enabled, Inv, StaysAbandoned;
    ExecutionInv(states, steps, i);
    if i == j {
      AbandonedNow(states[i], e);
    } else {
      AbandonedForever(states, steps, i, j - 1, e);
      ExecutionInv(states, steps, j - 1);
      StepStaysAbandoned(states[i], states[j - 1], steps[j - 1], e);
    }
  }

  lemma AbandonedNow(s: State, e: nat)
    requires Inv(s) && Abandoned(s, e)
    ensures StaysAbandoned(s, s, e)
  {
    NobodyProduces(s, e);
  }

  /** In every run: a waiter, or the producer it waits for, can move unless that producer was cancelled unpublished. */
  lemma WaiterServedIff(states: seq<State>, steps: seq<Step>, i: nat, c: nat, e: nat)
    requires Execution(states, steps) && i < |states| && c in states[i].callers && states[i].callers[c] == Waiting(e)
    ensures e < |states[i].entries|
    ensures CanMove(states[i], c) || CanMove(states[i], states[i].entries[e].owner) <==>
            states[i].entries[e].state.Done? || !OwnerCancelled(states[i], e)
  {
    ExecutionInv(states, steps, i);
    var s := states[i];
    assert PhaseFits(s, c, s.callers[c]);
    KnownEntry(s, e);
    if s.entries[e].state.Done? {
      assert Enabled(s, Wake(c));
    } else if !OwnerCancelled(s, e) {
      ProducerMoves(s, s.entries[e].owner);
    }
  }

  // ---------------------------------------------------------------- when a waiter can be served

  /** A stretch of a run from `s`. */
  ghost predicate Stretch(s: State, states: seq<State>, steps: seq<Step>)
  {
    && |states| == |steps| + 1 && states[0] == s
    && forall i :: 0 <= i < |steps| ==> Enabled(states[i], steps[i]) && states[i + 1] == Do(states[i], steps[i])
  }

  /** Some continuation of the run returns the caller a result. */
  ghost predicate CanReturn(s: State, c: nat)
  {
    exists states, steps :: StretchReturns(s, states, steps, c)
  }

  ghost predicate StretchReturns(s: State, states: seq<State>, steps: seq<Step>, c: nat)
  {
    Stretch(s, states, steps) && c in states[|steps|].callers && states[|steps|].callers[c].Returned?
  }

  lemma StepThenReturn(s: State, step: Step, c: nat)
    requires Enabled(s, step) && CanReturn(Do(s, step), c)
    ensures CanReturn(s, c)
  {
    hide Do, Enabled;
    var states, steps :| StretchReturns(Do(s, step), states, steps, c);
    assert ([step] + steps)[1..] == steps && ([s] + states)[1..] == states;
    assert StretchReturns(s, [s] + states, [step] + steps, c);
  }

  lemma ReturnedNow(s: State, c: nat)
    requires c in s.callers && s.callers[c].Returned?
    ensures CanReturn(s, c)
  {
    assert StretchReturns(s, [s], [], c);
  }

  /** The producer finishes, then the waiter wakes. */
  lemma {:induction false} ProducerServes(s: State, c: nat, e: nat)
    requires Inv(s) && c in s.callers && s.callers[c] == Waiting(e) && e < |s.entries|
    requires s.entries[e].state.Done? || !OwnerCancelled(s, e)
    ensures CanReturn(s, c)
    decreases if s.entries[e].owner in s.callers then Remaining(s.callers[s.entries[e].owner]) else 0
  {
    hide CanReturn, EntryFits;
    KnownEntry(s, e);
    if s.entries[e].state.Done? {
      assert Enabled(s, Wake(c));
      ReturnedNow(Do(s, Wake(c)), c);
      StepThenReturn(s, Wake(c), c);
    } else {
      var owner := s.entries[e].owner;
      var step :=
        match s.callers[owner]
        case Fetching(_) => EndFetch(owner, Err(""))
        case Fetched(_, _) => FillCache(owner)
        case _ => Publish(owner);
      assert Enabled(s, step);
      StepInv(s, step);
      StepUsesUp(s, step);
      ProducerServes(Do(s, step), c, e);
      StepThenReturn(s, step, c);
    }
  }

  /** A stretch after an execution is an execution. */
  lemma Appended(states: seq<State>, steps: seq<Step>, i: nat, more: seq<State>, rest: seq<Step>)
    requires Execution(states, steps) && i < |states| && Stretch(states[i], more, rest)
    ensures Execution(states[..i] + more, steps[..i] + rest)
  {
  }

  /** In every run: a waiter can still be served if and only if its entry is published or its producer was not cancelled. */
  lemma WaiterCanReturnIff(states: seq<State>, steps: seq<Step>, i: nat, c: nat, e: nat)
    requires Execution(states, steps) && i < |states| && c in states[i].callers && states[i].callers[c] == Waiting(e)
    ensures e < |states[i].entries|
    ensures CanReturn(states[i], c) <==> states[i].entries[e].state.Done? || !OwnerCancelled(states[i], e)
  {
    hide Do, Enabled, CanReturn;
    ExecutionInv(states, steps, i);
    var s := states[i];
    assert PhaseFits(s, c, s.callers[c]);
    if s.entries[e].state.Done? || !OwnerCancelled(s, e) {
      ProducerServes(s, c, e);
    } else if CanReturn(s, c) {
      NeverServed(states, steps, i, c, e);
    }
  }

  lemma NeverServed(states: seq<State>, steps: seq<Step>, i: nat, c: nat, e: nat)
    requires Execution(states, steps) && i < |states| && c in states[i].callers && states[i].callers[c] == Waiting(e)
    requires e < |states[i].entries| && states[i].entries[e].state.Pending? && OwnerCancelled(states[i], e)
    ensures !CanReturn(states[i], c)
  {
    hide Do, Enabled, Inv;
    UnpublishedIsRegistered(states, steps, i);
    if CanReturn(states[i], c) {
      var more, rest :| StretchReturns(states[i], more, rest, c);
      var (run, taken) := (states[..i] + more, steps[..i] + rest);
      Appended(states, steps, i, more, rest);
      AbandonedForever(run, taken, i, i + |rest|, e);
    }
  }
}
