/**
 The persistent metadata cache and conditional requests (src/async_resolver.rs,
 `async_fetch_with_cache`) for one URL, as a transition system: any number of fetches, detached
 cache writes that land in any order or not at all, and a server that may change at any moment.

 Validators follow sections 13.1.2, 13.1.3 and 15.4.5 of RFC 9110.
 */
module ConditionalFetch {
  import opened Options

  /** A response body with its validators; a cache row stores exactly this. */
  datatype Representation = Representation(body: string, etag: Option<string>, lastModified: Option<string>)

  datatype CacheMode = Default | PreferOffline | Offline | PreferOnline
  {
    predicate AllowsNetwork() { !Offline? }
    predicate ServesStale() { PreferOffline? || Offline? }
  }

  /** A 304 is allowed: `If-None-Match` decides when present, else `If-Modified-Since` does. */
  predicate Matches(cached: Option<Representation>, current: Representation)
  {
    cached.Some? &&
    if cached.value.etag.Some? then current.etag == cached.value.etag
    else cached.value.lastModified.Some? && current.lastModified == cached.value.lastModified
  }

  /** The hypothesis on the server: equal validators mean equal bodies. */
  ghost predicate Coherent(held: set<Representation>)
  {
    forall a, b :: a in held && b in held && Matches(Some(a), b) ==> a.body == b.body
  }

  datatype Answer = NotModified | Full(representation: Representation)

  datatype Source = Cached | Network(held: Representation)

  datatype Failure = OfflineMiss | Unexpected304 | RequestFailed

  datatype Phase =
    | Reading(mode: CacheMode)
    | Queued(mode: CacheMode, cached: Option<Representation>)
    | Sent(mode: CacheMode, cached: Option<Representation>)
    | Answered(mode: CacheMode, cached: Option<Representation>, answer: Answer, held: Representation)
    | Finished(mode: CacheMode, body: string, source: Source)
    | Failed(mode: CacheMode, why: Failure)

  datatype State = State(
    fetches: map<nat, Phase>,
    row: Option<Representation>,
    pending: multiset<Representation>,
    server: Representation,
    /** History: everything the server has held, and everything it has sent in full. */
    held: set<Representation>,
    served: set<Representation>)

  datatype Step =
    | Start(fetch: nat, mode: CacheMode)
    | Read(fetch: nat, readable: bool)
    | Send(fetch: nat)
    | Reply(fetch: nat, notModified: bool)
    | Break(fetch: nat)
    | Receive(fetch: nat)
    | WriteRow(row: Representation)
    | LoseRow(row: Representation)
    | Change(server: Representation)

  ghost predicate Init(s: State)
  {
    s == State(map[], None, multiset{}, s.server, {s.server}, {}) && Coherent({s.server})
  }

  ghost predicate Enabled(s: State, step: Step)
  {
    match step
    case Start(c, _) => c !in s.fetches
    case Read(c, _) => c in s.fetches && s.fetches[c].Reading?
    case Send(c) => c in s.fetches && s.fetches[c].Queued?
    case Reply(c, notModified) =>
      c in s.fetches && s.fetches[c].Sent? && (notModified ==> Matches(s.fetches[c].cached, s.server))
    case Break(c) => c in s.fetches && (s.fetches[c].Queued? || s.fetches[c].Sent? || s.fetches[c].Answered?)
    case Receive(c) => c in s.fetches && s.fetches[c].Answered?
    case WriteRow(row) => row in s.pending
    case LoseRow(row) => row in s.pending
    case Change(next) => Coherent(s.held + {next})
  }

  /** After the cache read: served from the cache, failed closed, or on to the network. */
  function AfterRead(mode: CacheMode, cached: Option<Representation>): Phase
  {
    if !mode.AllowsNetwork() then
      if cached.Some? then Finished(mode, cached.value.body, Cached) else Failed(mode, OfflineMiss)
    else if mode.ServesStale() && cached.Some? then Finished(mode, cached.value.body, Cached)
    else Queued(mode, cached)
  }

  ghost function Do(s: State, step: Step): State
    requires Enabled(s, step)
  {
    match step
    case Start(c, mode) => s.(fetches := s.fetches[c := Reading(mode)])
    case Read(c, readable) =>
      // An unreadable cache counts as no usable body, and fails an offline fetch.
      s.(fetches := s.fetches[c := AfterRead(s.fetches[c].mode, if readable then s.row else None)])
    case Send(c) => s.(fetches := s.fetches[c := Sent(s.fetches[c].mode, s.fetches[c].cached)])
    case Reply(c, notModified) =>
      var Sent(mode, cached) := s.fetches[c];
      var answer := if notModified then NotModified else Full(s.server);
      s.(fetches := s.fetches[c := Answered(mode, cached, answer, s.server)],
         served := if notModified then s.served else s.served + {s.server})
    case Break(c) => s.(fetches := s.fetches[c := Failed(s.fetches[c].mode, RequestFailed)])
    case Receive(c) =>
      var Answered(mode, cached, answer, held) := s.fetches[c];
      match answer {
        case NotModified =>
          var phase := if cached.Some? then Finished(mode, cached.value.body, Network(held)) else Failed(mode, Unexpected304);
          s.(fetches := s.fetches[c := phase])
        case Full(r) =>
          s.(fetches := s.fetches[c := Finished(mode, r.body, Network(held))], pending := s.pending + multiset{r})
      }
    case WriteRow(row) => s.(row := Some(row), pending := s.pending - multiset{row})
    case LoseRow(row) => s.(pending := s.pending - multiset{row})
    case Change(next) => s.(server := next, held := s.held + {next})
  }

  // ---------------------------------------------------------------- the invariant

  predicate OnceServed(s: State, cached: Option<Representation>)
  {
    cached.Some? ==> cached.value in s.served
  }

  ghost predicate PhaseFits(s: State, phase: Phase)
  {
    match phase
    case Reading(_) => true
    case Queued(mode, cached) => mode.AllowsNetwork() && OnceServed(s, cached) && (mode.ServesStale() ==> cached.None?)
    case Sent(mode, cached) => mode.AllowsNetwork() && OnceServed(s, cached) && (mode.ServesStale() ==> cached.None?)
    case Answered(mode, cached, answer, held) =>
      && mode.AllowsNetwork() && OnceServed(s, cached) && held in s.held && (mode.ServesStale() ==> cached.None?)
      && (answer.NotModified? ==> Matches(cached, held))
      && (answer.Full? ==> answer.representation == held && held in s.served)
    case Finished(mode, body, Cached) => mode.ServesStale() && exists r :: r in s.served && r.body == body
    case Finished(mode, body, Network(held)) => mode.AllowsNetwork() && held in s.held && body == held.body
    case Failed(_, why) => why != Unexpected304
  }

  ghost predicate Inv(s: State)
  {
    && Coherent(s.held) && s.served <= s.held && s.server in s.held
    && OnceServed(s, s.row)
    && (forall r :: r in s.pending ==> r in s.served)
    && (forall c :: c in s.fetches ==> PhaseFits(s, s.fetches[c]))
  }

  lemma MorePhasesFit(s: State, s': State, phase: Phase)
    requires PhaseFits(s, phase) && s.served <= s'.served && s.held <= s'.held
    ensures PhaseFits(s', phase)
  {
    match phase
    case Finished(mode, body, Cached) =>
      var r :| r in s.served && r.body == body;
      assert r in s'.served;
    case _ =>
  }

  lemma StepPhase(s: State, step: Step)
    requires Inv(s) && Enabled(s, step) && !step.WriteRow? && !step.LoseRow? && !step.Change?
    ensures PhaseFits(Do(s, step), Do(s, step).fetches[step.fetch])
  {
    if step.fetch in s.fetches {
      assert PhaseFits(s, s.fetches[step.fetch]);
    }
    if step.Receive? {
      var Answered(mode, cached, answer, held) := s.fetches[step.fetch];
      if answer.NotModified? {
        assert cached.value in s.held && Matches(Some(cached.value), held);
      }
    }
  }

  lemma StepPhases(s: State, step: Step, c: nat)
    requires Inv(s) && Enabled(s, step) && c in Do(s, step).fetches
    ensures PhaseFits(Do(s, step), Do(s, step).fetches[c])
  {
    hide Matches, Coherent;
    var s' := Do(s, step);
    if c in s.fetches && s'.fetches[c] == s.fetches[c] {
      assert PhaseFits(s, s.fetches[c]);
      MorePhasesFit(s, s', s.fetches[c]);
    } else {
      StepPhase(s, step);
    }
  }

  lemma StepInv(s: State, step: Step)
    requires Inv(s) && Enabled(s, step)
    ensures Inv(Do(s, step))
  {
    hide Matches;
    if step.Receive? {
      assert PhaseFits(s, s.fetches[step.fetch]);
    }
    forall c | c in Do(s, step).fetches
      ensures PhaseFits(Do(s, step), Do(s, step).fetches[c])
    {
      StepPhases(s, step, c);
    }
  }

  // ---------------------------------------------------------------- whole runs

  ghost predicate Execution(states: seq<State>, steps: seq<Step>)
  {
    && |states| == |steps| + 1 && Init(states[0])
    && forall i :: 0 <= i < |steps| ==> Enabled(states[i], steps[i]) && states[i + 1] == Do(states[i], steps[i])
  }

  lemma {:induction false} ExecutionInv(states: seq<State>, steps: seq<Step>, i: nat)
    requires Execution(states, steps) && i < |states|
    ensures Inv(states[i])
  {
    if i > 0 {
      ExecutionInv(states, steps, i - 1);
      StepInv(states[i - 1], steps[i - 1]);
    }
  }

  /** The moment the server answered this fetch, holding `held`. */
  ghost predicate RepliedAt(states: seq<State>, steps: seq<Step>, i: int, fetch: nat, held: Representation)
    requires |states| == |steps| + 1
  {
    0 <= i < |steps| && steps[i].Reply? && steps[i].fetch == fetch && states[i].server == held
  }

  ghost predicate HeldIn(phase: Phase, held: Representation)
  {
    (phase.Answered? && phase.held == held) || (phase.Finished? && phase.source == Network(held))
  }

  lemma {:induction false} HeldWasReplied(states: seq<State>, steps: seq<Step>, j: nat, fetch: nat, held: Representation)
    requires Execution(states, steps) && j < |states| && fetch in states[j].fetches && HeldIn(states[j].fetches[fetch], held)
    ensures exists i :: i < j && RepliedAt(states, steps, i, fetch, held)
    decreases j
  {
    assert j > 0;
    var s, step := states[j - 1], steps[j - 1];
    if step.Reply? && step.fetch == fetch {
      assert RepliedAt(states, steps, j - 1, fetch, held);
    } else {
      HeldWasReplied(states, steps, j - 1, fetch, held);
    }
  }

  /**
   A default-mode (or prefer-online) fetch that finishes returns the body the server held at the
   moment it answered that fetch.
   */
  lemma FreshBody(states: seq<State>, steps: seq<Step>, j: nat, fetch: nat)
    requires Execution(states, steps) && j < |states| && fetch in states[j].fetches
    requires states[j].fetches[fetch].Finished? && !states[j].fetches[fetch].mode.ServesStale()
    ensures exists i :: 0 <= i < j && RepliedAt(states, steps, i, fetch, states[i].server) &&
              states[j].fetches[fetch].body == states[i].server.body
  {
    ExecutionInv(states, steps, j);
    var phase := states[j].fetches[fetch];
    assert PhaseFits(states[j], phase);
    var held := phase.source.held;
    HeldWasReplied(states, steps, j, fetch, held);
    var i :| i < j && RepliedAt(states, steps, i, fetch, held);
    assert states[i].server.body == phase.body;
  }

  /** A prefer-offline fetch returns a body once served, or the one held when the server answered it. */
  lemma StaleOrFresh(states: seq<State>, steps: seq<Step>, j: nat, fetch: nat)
    requires Execution(states, steps) && j < |states| && fetch in states[j].fetches
    requires states[j].fetches[fetch].Finished? && states[j].fetches[fetch].mode.PreferOffline?
    ensures (exists r :: r in states[j].served && r.body == states[j].fetches[fetch].body) ||
            (exists i :: 0 <= i < j && RepliedAt(states, steps, i, fetch, states[i].server) &&
               states[j].fetches[fetch].body == states[i].server.body)
  {
    ExecutionInv(states, steps, j);
    var phase := states[j].fetches[fetch];
    assert PhaseFits(states[j], phase);
    if phase.source.Network? {
      var held := phase.source.held;
      HeldWasReplied(states, steps, j, fetch, held);
      var i :| i < j && RepliedAt(states, steps, i, fetch, held);
      assert states[i].server.body == phase.body;
    }
  }

  lemma {:induction false} ModeIsFixed(states: seq<State>, steps: seq<Step>, i: nat, j: nat, fetch: nat)
    requires Execution(states, steps) && i <= j < |states| && fetch in states[i].fetches
    ensures fetch in states[j].fetches && states[j].fetches[fetch].mode == states[i].fetches[fetch].mode
    decreases j - i
  {
    if i < j {
      ModeIsFixed(states, steps, i, j - 1, fetch);
    }
  }

  /** An offline fetch sends nothing, and returns only a body the server once sent. */
  lemma OfflineIsClosed(states: seq<State>, steps: seq<Step>, j: nat, fetch: nat)
    requires Execution(states, steps) && j < |states| && fetch in states[j].fetches && states[j].fetches[fetch].mode.Offline?
    ensures forall i :: 0 <= i < j ==> steps[i] != Send(fetch)
    ensures var phase := states[j].fetches[fetch];
            phase.Finished? ==> exists r :: r in states[j].served && r.body == phase.body
  {
    ExecutionInv(states, steps, j);
    assert PhaseFits(states[j], states[j].fetches[fetch]);
    forall i | 0 <= i < j
      ensures steps[i] != Send(fetch)
    {
      if fetch in states[i].fetches {
        ExecutionInv(states, steps, i);
        assert PhaseFits(states[i], states[i].fetches[fetch]);
        ModeIsFixed(states, steps, i, j, fetch);
      }
      assert Enabled(states[i], steps[i]);
    }
  }

  /** Under the hypothesis on the server, a 304 always finds its cached body. */
  lemma NotModifiedHasBody(states: seq<State>, steps: seq<Step>, j: nat, fetch: nat)
    requires Execution(states, steps) && j < |states| && fetch in states[j].fetches
    ensures states[j].fetches[fetch].Failed? ==> states[j].fetches[fetch].why != Unexpected304
  {
    ExecutionInv(states, steps, j);
    assert PhaseFits(states[j], states[j].fetches[fetch]);
  }

  // ---------------------------------------------------------------- what the cache read decides

  /** The moment the fetch read the cache, and what it got. */
  ghost predicate ReadAt(states: seq<State>, steps: seq<Step>, i: int, fetch: nat, got: Option<Representation>)
    requires |states| == |steps| + 1
  {
    && 0 <= i < |steps| && steps[i].Read? && steps[i].fetch == fetch
    && got == if steps[i].readable then states[i].row else None
  }

  /** Where a fetch can be that got `got` from the cache. */
  predicate Follows(phase: Phase, got: Option<Representation>)
  {
    if phase.mode.Offline? || (phase.mode.PreferOffline? && got.Some?) then
      phase == if got.Some? then Finished(phase.mode, got.value.body, Cached) else Failed(phase.mode, OfflineMiss)
    else
      match phase
      case Reading(_) => false
      case Queued(_, cached) => cached == got
      case Sent(_, cached) => cached == got
      case Answered(_, cached, answer, held) => cached == got && (answer == Full(held) || (answer == NotModified && Matches(got, held)))
      case Finished(_, body, source) => source.Network? && body == source.held.body
      case Failed(_, why) => why == RequestFailed
  }

  lemma StepFollows(s: State, step: Step, fetch: nat, got: Option<Representation>)
    requires Inv(s) && Enabled(s, step) && fetch in s.fetches && Follows(s.fetches[fetch], got)
    ensures fetch in Do(s, step).fetches && Follows(Do(s, step).fetches[fetch], got)
  {
    assert PhaseFits(s, s.fetches[fetch]);
    if step.Receive? && step.fetch == fetch {
      StepPhase(s, step);
    }
  }

  /**
   Every fetch past its cache read is decided by what it read: offline it returns that body or fails for want of one;
   prefer-offline it returns that body if there is one; otherwise it goes to the server with that row's validators, and
   ends with the body the server held when it answered, or because the request broke.
   */
  lemma {:induction false} ReadDecides(states: seq<State>, steps: seq<Step>, j: nat, fetch: nat)
    requires Execution(states, steps) && j < |states| && fetch in states[j].fetches && !states[j].fetches[fetch].Reading?
    ensures exists i, got :: i < j && ReadAt(states, steps, i, fetch, got) && Follows(states[j].fetches[fetch], got)
    decreases j
  {
    hide Matches, Coherent;
    assert j > 0;
    var s, step := states[j - 1], steps[j - 1];
    if step.Read? && step.fetch == fetch {
      var got := if step.readable then s.row else None;
      assert ReadAt(states, steps, j - 1, fetch, got) && Follows(states[j].fetches[fetch], got);
    } else {
      assert fetch in s.fetches && !s.fetches[fetch].Reading?;
      ReadDecides(states, steps, j - 1, fetch);
      var i, got :| i < j - 1 && ReadAt(states, steps, i, fetch, got) && Follows(s.fetches[fetch], got);
      ExecutionInv(states, steps, j - 1);
      StepFollows(s, step, fetch, got);
    }
  }

  /** A cached row that can be read is served: to an offline or prefer-offline fetch at once, with no step in between. */
  lemma CachedRowIsServed(states: seq<State>, steps: seq<Step>, i: nat, fetch: nat, row: Representation)
    requires Execution(states, steps) && i < |steps| && steps[i] == Read(fetch, true) && states[i].row == Some(row)
    requires fetch in states[i].fetches && states[i].fetches[fetch].mode.ServesStale()
    ensures fetch in states[i + 1].fetches
    ensures states[i + 1].fetches[fetch] == Finished(states[i].fetches[fetch].mode, row.body, Cached)
  {
    assert Enabled(states[i], steps[i]);
  }

  /** An offline fetch fails only for want of a row: it read none, or could not read. */
  lemma OfflineMissMeansNoRow(states: seq<State>, steps: seq<Step>, j: nat, fetch: nat)
    requires Execution(states, steps) && j < |states| && fetch in states[j].fetches
    requires states[j].fetches[fetch].mode.Offline? && states[j].fetches[fetch].Failed?
    ensures states[j].fetches[fetch].why == OfflineMiss
    ensures exists i :: 0 <= i < j && steps[i].Read? && steps[i].fetch == fetch && (states[i].row.None? || !steps[i].readable)
  {
    ReadDecides(states, steps, j, fetch);
    var i, got :| i < j && ReadAt(states, steps, i, fetch, got) && Follows(states[j].fetches[fetch], got);
    assert steps[i].Read?;
  }

  /** A 304 answers a fetch that has a row whose entity tag, or without one whose date, is what the server held. */
  lemma NotModifiedMeansSameValidator(states: seq<State>, steps: seq<Step>, j: nat, fetch: nat)
    requires Execution(states, steps) && j < |states| && fetch in states[j].fetches
    requires states[j].fetches[fetch].Answered? && states[j].fetches[fetch].answer.NotModified?
    ensures var (cached, held) := (states[j].fetches[fetch].cached, states[j].fetches[fetch].held);
            && cached.Some? && cached.value.body == held.body
            && (cached.value.etag.Some? ==> held.etag == cached.value.etag)
            && (cached.value.etag.None? ==> cached.value.lastModified.Some? && held.lastModified == cached.value.lastModified)
  {
    ExecutionInv(states, steps, j);
    assert PhaseFits(states[j], states[j].fetches[fetch]);
  }

  lemma RowAfter(s: State, step: Step)
    requires Enabled(s, step)
    ensures Do(s, step).row == if step.WriteRow? then Some(step.row) else s.row
  {
  }

  lemma PendingAfter(s: State, step: Step, r: Representation)
    requires Enabled(s, step) && r in s.pending
    ensures r in Do(s, step).pending || step == WriteRow(r) || step == LoseRow(r)
  {
  }

  /** A row, once written, is only ever replaced by a later write. */
  lemma {:induction false} RowsStay(states: seq<State>, steps: seq<Step>, i: nat, j: nat)
    requires Execution(states, steps) && i <= j < |states| && states[i].row.Some?
    ensures states[j].row.Some?
    ensures states[j].row == states[i].row || exists k :: i <= k < j && steps[k] == WriteRow(states[j].row.value)
    decreases j - i
  {
    hide Do, Enabled, Init;
    if i < j {
      RowsStay(states, steps, i, j - 1);
      RowAfter(states[j - 1], steps[j - 1]);
      if steps[j - 1].WriteRow? {
        assert steps[j - 1] == WriteRow(states[j].row.value);
      } else {
        assert states[j].row == states[j - 1].row;
      }
    }
  }

  ghost predicate WrittenOrLost(steps: seq<Step>, i: int, j: int, row: Representation)
    requires 0 <= i <= j <= |steps|
  {
    exists k :: i <= k < j && (steps[k] == WriteRow(row) || steps[k] == LoseRow(row))
  }

  /** A full answer is handed to the cache: its write stays pending until it lands, and then is the row, or is lost. */
  lemma {:induction false} FullAnswerIsStored(states: seq<State>, steps: seq<Step>, i: nat, j: nat, fetch: nat, r: Representation)
    requires Execution(states, steps) && i < j < |states| && steps[i] == Receive(fetch)
    requires fetch in states[i].fetches && states[i].fetches[fetch].Answered? && states[i].fetches[fetch].answer == Full(r)
    ensures r in states[j].pending || WrittenOrLost(steps, i, j, r)
    decreases j
  {
    hide Do, Enabled, Init;
    if j == i + 1 {
      ReceiveHandsOver(states[i], fetch, r);
    } else {
      FullAnswerIsStored(states, steps, i, j - 1, fetch, r);
      if WrittenOrLost(steps, i, j - 1, r) {
        var k :| i <= k < j - 1 && (steps[k] == WriteRow(r) || steps[k] == LoseRow(r));
        assert WrittenOrLost(steps, i, j, r);
      } else {
        PendingAfter(states[j - 1], steps[j - 1], r);
        assert r !in states[j].pending ==> steps[j - 1] == WriteRow(r) || steps[j - 1] == LoseRow(r);
      }
    }
  }

  lemma ReceiveHandsOver(s: State, fetch: nat, r: Representation)
    requires Enabled(s, Receive(fetch)) && s.fetches[fetch].answer == Full(r)
    ensures r in Do(s, Receive(fetch)).pending
  {
  }

  lemma WriteLands(states: seq<State>, steps: seq<Step>, i: nat, row: Representation)
    requires Execution(states, steps) && i < |steps| && steps[i] == WriteRow(row)
    ensures states[i + 1].row == Some(row)
  {
    assert states[i + 1] == Do(states[i], steps[i]);
  }

  // ---------------------------------------------------------------- progress

  /** How many steps of its own a fetch has left at most. */
  function Remaining(phase: Phase): nat
  {
    match phase
    case Reading(_) => 4
    case Queued(_, _) => 3
    case Sent(_, _) => 2
    case Answered(_, _, _, _) => 1
    case Finished(_, _, _) => 0
    case Failed(_, _) => 0
  }

  predicate OwnStep(step: Step, fetch: nat)
  {
    (step.Read? || step.Send? || step.Reply? || step.Break? || step.Receive?) && step.fetch == fetch
  }

  /** Every step of a fetch's own brings it nearer to its end, and nobody else's step moves it. */
  lemma StepUsesUp(s: State, step: Step, fetch: nat)
    requires Enabled(s, step)
    ensures fetch in s.fetches ==> fetch in Do(s, step).fetches
    ensures fetch in s.fetches && OwnStep(step, fetch) ==> Remaining(Do(s, step).fetches[fetch]) < Remaining(s.fetches[fetch])
    ensures fetch in s.fetches && !OwnStep(step, fetch) ==> Do(s, step).fetches[fetch] == s.fetches[fetch]
    ensures OwnStep(step, fetch) ==> fetch in s.fetches
    ensures fetch !in s.fetches && fetch in Do(s, step).fetches ==> Do(s, step).fetches[fetch].Reading?
  {
  }

  function StepsOf(steps: seq<Step>, fetch: nat): nat
  {
    if steps == [] then 0
    else StepsOf(steps[..|steps| - 1], fetch) + (if OwnStep(steps[|steps| - 1], fetch) then 1 else 0)
  }

  /** So no fetch takes more than four steps in any run. */
  lemma {:induction false} BoundedSteps(states: seq<State>, steps: seq<Step>, i: nat, fetch: nat)
    requires Execution(states, steps) && i < |states|
    ensures fetch in states[i].fetches ==> StepsOf(steps[..i], fetch) + Remaining(states[i].fetches[fetch]) <= 4
    ensures fetch !in states[i].fetches ==> StepsOf(steps[..i], fetch) == 0
    decreases i
  {
    hide Do, Enabled, Remaining, OwnStep;
    if i > 0 {
      BoundedSteps(states, steps, i - 1, fetch);
      assert steps[..i][..i - 1] == steps[..i - 1];
      StepUsesUp(states[i - 1], steps[i - 1], fetch);
      ReadingIsFirst();
    }
  }

  lemma ReadingIsFirst()
    ensures forall phase: Phase :: phase.Reading? ==> Remaining(phase) == 4
  {
  }

  /** How often a row was handed over to the cache, and how often its write landed or was lost. */
  ghost function HandedOver(states: seq<State>, steps: seq<Step>, n: nat, row: Representation): nat
    requires |states| == |steps| + 1 && n <= |steps|
  {
    if n == 0 then 0
    else
      HandedOver(states, steps, n - 1, row) +
        (if steps[n - 1].Receive? && steps[n - 1].fetch in states[n - 1].fetches
            && states[n - 1].fetches[steps[n - 1].fetch].Answered?
            && states[n - 1].fetches[steps[n - 1].fetch].answer == Full(row) then 1 else 0)
  }

  function Settled(steps: seq<Step>, n: nat, row: Representation): nat
    requires n <= |steps|
  {
    if n == 0 then 0
    else Settled(steps, n - 1, row) + (if steps[n - 1] == WriteRow(row) || steps[n - 1] == LoseRow(row) then 1 else 0)
  }

  lemma PendingStep(s: State, step: Step, row: Representation)
    requires Enabled(s, step)
    ensures var received := if step.Receive? && s.fetches[step.fetch].answer == Full(row) then 1 else 0;
            var settled := if step == WriteRow(row) || step == LoseRow(row) then 1 else 0;
            Do(s, step).pending[row] == s.pending[row] + received - settled && settled <= s.pending[row]
  {
  }

  /** Every write handed over lands or is lost once: those pending are those handed over and not settled yet. */
  lemma {:induction false} EachWriteOnce(states: seq<State>, steps: seq<Step>, i: nat, row: Representation)
    requires Execution(states, steps) && i < |states|
    ensures states[i].pending[row] + Settled(steps, i, row) == HandedOver(states, steps, i, row)
    decreases i
  {
    hide Do, Enabled, Coherent;
    if i > 0 {
      EachWriteOnce(states, steps, i - 1, row);
      PendingStep(states[i - 1], steps[i - 1], row);
      if steps[i - 1].Receive? {
        ReceivesAnswered(states[i - 1], steps[i - 1]);
      }
    }
  }

  lemma ReceivesAnswered(s: State, step: Step)
    requires Enabled(s, step) && step.Receive?
    ensures step.fetch in s.fetches && s.fetches[step.fetch].Answered?
  {
  }

  /** What the server holds is what it was last changed to. */
  lemma {:induction false} ServerIsLastChange(states: seq<State>, steps: seq<Step>, i: nat, j: nat, next: Representation)
    requires Execution(states, steps) && i < j < |states| && steps[i] == Change(next)
    requires forall k :: i < k < j ==> !steps[k].Change?
    ensures states[j].server == next
    decreases j
  {
    hide Do, Enabled, Coherent;
    ServerAfter(states[j - 1], steps[j - 1]);
    if i < j - 1 {
      ServerIsLastChange(states, steps, i, j - 1, next);
    }
  }

  lemma ServerAfter(s: State, step: Step)
    requires Enabled(s, step)
    ensures Do(s, step).server == if step.Change? then step.server else s.server
  {
  }

  /** A fetch that has not ended always has a step, whatever the others do. */
  lemma FetchNeverStuck(s: State, fetch: nat)
    requires fetch in s.fetches && !s.fetches[fetch].Finished? && !s.fetches[fetch].Failed?
    ensures exists step :: Enabled(s, step) && !step.WriteRow? && !step.LoseRow? && !step.Change? && !step.Break? && step.fetch == fetch
  {
    var step :=
      match s.fetches[fetch]
      case Reading(_) => Read(fetch, true)
      case Queued(_, _) => Send(fetch)
      case Sent(_, _) => Reply(fetch, false)
      case _ => Receive(fetch);
    assert Enabled(s, step);
  }
}
