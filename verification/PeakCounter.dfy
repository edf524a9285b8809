/**
 The request limiter and the peak-concurrency counter (src/async_resolver.rs,
 `async_fetch_with_cache` and `async_send_with_retry`) as a transition system with any number of
 requests.

 All atomics are relaxed. Read-modify-write operations see the newest value of their own variable;
 plain loads and failed exchanges may return an older one, but never older than what the same
 request already saw. `peaks` is therefore the whole modification order of the peak variable.
 */
module PeakCounter {
  import opened Ordering

  datatype Phase =
    | Queued                                           // waiting for a permit
    | Admitted                                         // permit held, not counted yet
    | Counted(current: nat)                            // `fetch_add` done, peak not loaded
    | Looping(current: nat, peak: nat, view: nat)      // in the compare-exchange loop, last saw `peaks[view]`
    | Measured(current: nat, at: nat)                  // loop left on account of `peaks[at]`
    | Left                                             // `fetch_sub` done, permit still held
    | Released

  datatype State = State(
    limit: nat,
    permits: nat,
    phases: map<nat, Phase>,
    inFlight: nat,
    peaks: seq<nat>,
    /** History: every count some request saw. */
    counts: set<nat>)

  datatype Step =
    | Arrive(request: nat)
    | Acquire(request: nat)
    | Count(request: nat)
    | Load(request: nat, index: nat)
    | ExitLoop(request: nat)
    | Exchange(request: nat)
    | ExchangeFails(request: nat, index: nat)
    | Leave(request: nat)
    | Release(request: nat)
    | Drain

  ghost predicate Init(s: State)
  {
    s.limit >= 1 && s == State(s.limit, s.limit, map[], 0, [0], {})
  }

  function Peak(s: State): nat
  {
    if s.peaks == [] then 0 else s.peaks[|s.peaks| - 1]
  }

  ghost predicate Enabled(s: State, step: Step)
  {
    match step
    case Arrive(c) => c !in s.phases
    case Acquire(c) => c in s.phases && s.phases[c].Queued? && s.permits > 0
    case Count(c) => c in s.phases && s.phases[c].Admitted?
    case Load(c, k) => c in s.phases && s.phases[c].Counted? && k < |s.peaks|
    case ExitLoop(c) => c in s.phases && s.phases[c].Looping? && s.phases[c].current <= s.phases[c].peak
    case Exchange(c) => c in s.phases && s.phases[c].Looping? && s.phases[c].current > s.phases[c].peak && Peak(s) == s.phases[c].peak
    case ExchangeFails(c, k) =>
      && c in s.phases && s.phases[c].Looping? && s.phases[c].current > s.phases[c].peak
      && s.phases[c].view <= k < |s.peaks| && s.peaks[k] != s.phases[c].peak
    case Leave(c) => c in s.phases && s.phases[c].Measured? && s.inFlight > 0
    case Release(c) => c in s.phases && s.phases[c].Left?
    case Drain => true
  }

  function Move(s: State, c: nat, phase: Phase): State
  {
    s.(phases := s.phases[c := phase])
  }

  ghost function Do(s: State, step: Step): State
    requires Enabled(s, step)
  {
    match step
    case Arrive(c) => Move(s, c, Queued)
    case Acquire(c) => Move(s, c, Admitted).(permits := s.permits - 1)
    case Count(c) => Move(s, c, Counted(s.inFlight + 1)).(inFlight := s.inFlight + 1, counts := s.counts + {s.inFlight + 1})
    case Load(c, k) => Move(s, c, Looping(s.phases[c].current, s.peaks[k], k))
    case ExitLoop(c) => Move(s, c, Measured(s.phases[c].current, s.phases[c].view))
    case Exchange(c) => Move(s, c, Measured(s.phases[c].current, |s.peaks|)).(peaks := s.peaks + [s.phases[c].current])
    case ExchangeFails(c, k) => Move(s, c, Looping(s.phases[c].current, s.peaks[k], k))
    case Leave(c) => Move(s, c, Left).(inFlight := s.inFlight - 1)
    case Release(c) => Move(s, c, Released).(permits := s.permits + 1)
    case Drain => s.(peaks := s.peaks + [0])
  }

  // ---------------------------------------------------------------- the invariant

  predicate IsCounted(phase: Phase)
  {
    phase.Counted? || phase.Looping? || phase.Measured?
  }

  predicate HoldsPermit(phase: Phase)
  {
    phase.Admitted? || phase.Left? || IsCounted(phase)
  }

  function CountedSet(s: State): set<nat>
  {
    set c | c in s.phases && IsCounted(s.phases[c])
  }

  function Holders(s: State): set<nat>
  {
    set c | c in s.phases && HoldsPermit(s.phases[c])
  }

  ghost predicate PhaseFits(s: State, phase: Phase)
  {
    match phase
    case Counted(current) => current in s.counts
    case Looping(current, peak, view) => current in s.counts && view < |s.peaks| && s.peaks[view] == peak
    case Measured(current, at) => current in s.counts && at < |s.peaks| && s.peaks[at] >= current
    case _ => true
  }

  /** Every write of the peak raises it, except a drain, which writes zero. */
  ghost predicate RisesOrDrains(peaks: seq<nat>)
  {
    forall m :: 0 < m < |peaks| ==> peaks[m] == 0 || peaks[m] > peaks[m - 1]
  }

  ghost predicate Inv(s: State)
  {
    && s.inFlight == |CountedSet(s)| && s.permits + |Holders(s)| == s.limit
    && (forall n :: n in s.counts ==> 0 < n <= s.limit)
    && |s.peaks| > 0 && RisesOrDrains(s.peaks)
    && (forall m :: 0 <= m < |s.peaks| ==> s.peaks[m] == 0 || s.peaks[m] in s.counts)
    && (forall c :: c in s.phases ==> PhaseFits(s, s.phases[c]))
  }

  /** Requests in flight never outnumber the permits held, nor those the limit. */
  lemma InFlightBounded(s: State)
    requires Inv(s)
    ensures s.inFlight <= |Holders(s)| <= s.limit
  {
    SubsetCardinality(CountedSet(s), Holders(s));
  }

  /** Moving one request changes each count by whether it enters or leaves the counted phases. */
  lemma MoveCounts(s: State, c: nat, phase: Phase)
    ensures var s' := Move(s, c, phase);
            && CountedSet(s') == CountedSet(s) - {c} + (if IsCounted(phase) then {c} else {})
            && Holders(s') == Holders(s) - {c} + (if HoldsPermit(phase) then {c} else {})
    ensures c in CountedSet(s) <==> c in s.phases && IsCounted(s.phases[c])
    ensures c in Holders(s) <==> c in s.phases && HoldsPermit(s.phases[c])
  {
  }

  lemma SetChange(a: set<nat>, c: nat, joins: bool)
    ensures |a - {c} + (if joins then {c} else {})| == |a| - (if c in a then 1 else 0) + (if joins then 1 else 0)
  {
    if c in a {
      assert a == (a - {c}) + {c};
    } else {
      assert a - {c} == a;
    }
  }

  lemma MoveSizes(s: State, c: nat, phase: Phase)
    ensures var (s', was) := (Move(s, c, phase), if c in s.phases then s.phases[c] else Queued);
            && |CountedSet(s')| == |CountedSet(s)| - (if IsCounted(was) then 1 else 0) + (if IsCounted(phase) then 1 else 0)
            && |Holders(s')| == |Holders(s)| - (if HoldsPermit(was) then 1 else 0) + (if HoldsPermit(phase) then 1 else 0)
  {
    MoveCounts(s, c, phase);
    SetChange(CountedSet(s), c, IsCounted(phase));
    SetChange(Holders(s), c, HoldsPermit(phase));
  }

  lemma SamePhases(s: State, t: State)
    requires s.phases == t.phases
    ensures CountedSet(s) == CountedSet(t) && Holders(s) == Holders(t)
  {
  }

  lemma StepCounts(s: State, step: Step)
    requires Inv(s) && Enabled(s, step)
    ensures var s' := Do(s, step); s'.inFlight == |CountedSet(s')| && s'.permits + |Holders(s')| == s'.limit
  {
    hide PhaseFits, RisesOrDrains, CountedSet, Holders;
    var s' := Do(s, step);
    if step.Drain? {
      SamePhases(s, s');
    } else {
      var c := step.request;
      MoveSizes(s, c, s'.phases[c]);
      SamePhases(s', Move(s, c, s'.phases[c]));
    }
  }

  lemma CountInRange(s: State, c: nat)
    requires Inv(s) && Enabled(s, Count(c))
    ensures s.inFlight + 1 <= s.limit
  {
    assert CountedSet(s) + {c} <= Holders(s);
    SubsetCardinality(CountedSet(s) + {c}, Holders(s));
  }

  lemma StepPeaks(s: State, step: Step)
    requires Inv(s) && Enabled(s, step)
    ensures var s' := Do(s, step);
            && s.peaks <= s'.peaks && s.counts <= s'.counts && |s'.peaks| > 0 && RisesOrDrains(s'.peaks)
            && (forall n :: n in s'.counts ==> 0 < n <= s'.limit)
            && (forall m :: 0 <= m < |s'.peaks| ==> s'.peaks[m] == 0 || s'.peaks[m] in s'.counts)
  {
    if step.Count? {
      CountInRange(s, step.request);
    }
    if step.Exchange? {
      assert PhaseFits(s, s.phases[step.request]);
    }
  }

  lemma StepPhases(s: State, step: Step, c: nat)
    requires Inv(s) && Enabled(s, step) && c in Do(s, step).phases
    ensures PhaseFits(Do(s, step), Do(s, step).phases[c])
  {
    hide CountedSet, Holders, RisesOrDrains;
    if c in s.phases {
      assert PhaseFits(s, s.phases[c]);
    }
  }

  lemma StepInv(s: State, step: Step)
    requires Inv(s) && Enabled(s, step)
    ensures Inv(Do(s, step))
  {
    hide CountedSet, Holders, RisesOrDrains, PhaseFits;
    StepCounts(s, step);
    StepPeaks(s, step);
    forall c | c in Do(s, step).phases
      ensures PhaseFits(Do(s, step), Do(s, step).phases[c])
    {
      StepPhases(s, step, c);
    }
  }

  // ---------------------------------------------------------------- whole runs

  ghost predicate Execution(states: seq<State>, steps: seq<Step>)
  {
    && |states| == |steps| + 1 && Init(states[0])
    && forall i :: 0 <= i < |steps| ==> Enabled(states[i], steps[i]) && states[i + 1] == Do(states[i], steps[i])
  }

  lemma {:induction false} ExecutionInv(states: seq<State>, steps: seq<Step>, i: nat)
    requires Execution(states, steps) && i < |states|
    ensures Inv(states[i])
  {
    if i > 0 {
      ExecutionInv(states, steps, i - 1);
      StepInv(states[i - 1], steps[i - 1]);
    } else {
      assert CountedSet(states[0]) == {} && Holders(states[0]) == {};
    }
  }

  /** In every run, at every moment: in flight <= permits held <= limit, and the peak is within the limit. */
  lemma AlwaysWithinLimit(states: seq<State>, steps: seq<Step>, i: nat)
    requires Execution(states, steps) && i < |states|
    ensures var s := states[i]; s.inFlight <= |Holders(s)| <= s.limit && Peak(s) <= s.limit
  {
    ExecutionInv(states, steps, i);
    InFlightBounded(states[i]);
    assert Peak(states[i]) == 0 || Peak(states[i]) in states[i].counts;
  }

  /** No drain among the writes after `lo` up to `hi`. */
  ghost predicate Undrained(peaks: seq<nat>, lo: int, hi: int)
  {
    forall m :: lo < m <= hi && 0 <= m < |peaks| ==> peaks[m] != 0
  }

  lemma {:induction false} RisesStrictly(peaks: seq<nat>, lo: nat, hi: nat)
    requires RisesOrDrains(peaks) && lo < hi < |peaks| && Undrained(peaks, lo, hi)
    ensures peaks[lo] < peaks[hi]
    decreases hi
  {
    if hi > lo + 1 {
      RisesStrictly(peaks, lo, hi - 1);
    }
  }

  /**
   Once a request left its loop, the peak is at least the count it saw: from the write that let it
   leave on, until a later drain.
   */
  lemma PeakCoversCount(states: seq<State>, steps: seq<Step>, i: nat, c: nat, m: nat)
    requires Execution(states, steps) && i < |states| && c in states[i].phases && states[i].phases[c].Measured?
    requires states[i].phases[c].at <= m < |states[i].peaks| && Undrained(states[i].peaks, states[i].phases[c].at, m)
    ensures states[i].peaks[m] >= states[i].phases[c].current
  {
    ExecutionInv(states, steps, i);
    assert PhaseFits(states[i], states[i].phases[c]);
    var at := states[i].phases[c].at;
    if at < m {
      RisesStrictly(states[i].peaks, at, m);
    }
  }

  ghost predicate NoDrain(steps: seq<Step>, i: nat, j: nat)
    requires i <= j <= |steps|
  {
    forall k :: i <= k < j ==> !steps[k].Drain?
  }

  /** Between drains the peak never drops. */
  lemma {:induction false} PeakNeverDrops(states: seq<State>, steps: seq<Step>, i: nat, j: nat)
    requires Execution(states, steps) && i <= j < |states| && NoDrain(steps, i, j)
    ensures Peak(states[i]) <= Peak(states[j])
    decreases j - i
  {
    if i < j {
      PeakNeverDrops(states, steps, i, j - 1);
      assert Enabled(states[j - 1], steps[j - 1]);
    }
  }

  ghost predicate InLoopWith(s: State, n: nat)
  {
    exists c :: c in s.phases && (s.phases[c].Counted? || s.phases[c].Looping?) && s.phases[c].current == n
  }

  lemma {:induction false} UndrainedRun(states: seq<State>, steps: seq<Step>, i: nat)
    requires Execution(states, steps) && i < |states| && NoDrain(steps, 0, i)
    ensures Undrained(states[i].peaks, 0, |states[i].peaks|)
  {
    if i > 0 {
      UndrainedRun(states, steps, i - 1);
      assert Enabled(states[i - 1], steps[i - 1]);
    }
  }

  lemma LeavingCovers(s: State, step: Step)
    requires Inv(s) && Enabled(s, step) && (step.ExitLoop? || step.Exchange?) && Undrained(s.peaks, 0, |s.peaks|)
    ensures s.phases[step.request].current <= Peak(Do(s, step))
  {
    var phase := s.phases[step.request];
    assert PhaseFits(s, phase);
    if step.ExitLoop? && phase.view < |s.peaks| - 1 {
      RisesStrictly(s.peaks, phase.view, |s.peaks| - 1);
    }
  }

  /** In a run without drains every count seen is covered by the peak or still in its loop. */
  lemma {:induction false} CountsCovered(states: seq<State>, steps: seq<Step>, i: nat, n: nat)
    requires Execution(states, steps) && i < |states| && NoDrain(steps, 0, i) && n in states[i].counts
    ensures n <= Peak(states[i]) || InLoopWith(states[i], n)
    decreases i
  {
    hide Inv;
    var s, step := states[i - 1], steps[i - 1];
    assert Enabled(s, step) && states[i] == Do(s, step);
    if n in s.counts {
      CountsCovered(states, steps, i - 1, n);
      PeakNeverDrops(states, steps, i - 1, i);
      if InLoopWith(s, n) {
        var c :| c in s.phases && (s.phases[c].Counted? || s.phases[c].Looping?) && s.phases[c].current == n;
        if (step.ExitLoop? || step.Exchange?) && step.request == c {
          ExecutionInv(states, steps, i - 1);
          UndrainedRun(states, steps, i - 1);
          LeavingCovers(s, step);
        } else {
          assert c in states[i].phases && states[i].phases[c].current == n;
        }
      }
    } else {
      assert states[i].phases[step.request] == Counted(n);
    }
  }

  /** Without drains, and with nobody in the loop, the peak is exactly the largest count seen. */
  lemma PeakIsMaximum(states: seq<State>, steps: seq<Step>, i: nat)
    requires Execution(states, steps) && i < |states| && NoDrain(steps, 0, i)
    requires forall n :: !InLoopWith(states[i], n)
    ensures forall n :: n in states[i].counts ==> n <= Peak(states[i])
    ensures states[i].counts != {} ==> Peak(states[i]) in states[i].counts
  {
    ExecutionInv(states, steps, i);
    forall n | n in states[i].counts
      ensures n <= Peak(states[i])
    {
      CountsCovered(states, steps, i, n);
    }
    if states[i].counts != {} {
      var n :| n in states[i].counts;
      assert 0 < n <= Peak(states[i]);
    }
  }

  // ---------------------------------------------------------------- the loop ends

  function FailuresBy(steps: seq<Step>, c: nat): nat
  {
    if steps == [] then 0
    else
      var last := steps[|steps| - 1];
      FailuresBy(steps[..|steps| - 1], c) + (if last.ExchangeFails? && last.request == c then 1 else 0)
  }

  /** A failed exchange means a strictly larger peak was seen. */
  lemma FailureRaisesView(s: State, c: nat, k: nat)
    requires Inv(s) && Enabled(s, ExchangeFails(c, k)) && Undrained(s.peaks, 0, |s.peaks|)
    ensures s.phases[c].peak < s.peaks[k]
  {
    assert PhaseFits(s, s.phases[c]);
    assert s.phases[c].view != k;
    RisesStrictly(s.peaks, s.phases[c].view, k);
  }

  /** The failures of a request so far are bounded by the peak it last saw, hence by the limit. */
  lemma {:induction false} LoopEnds(states: seq<State>, steps: seq<Step>, i: nat, c: nat)
    requires Execution(states, steps) && i < |states| && NoDrain(steps, 0, i)
    ensures FailuresBy(steps[..i], c) <= states[i].limit
    ensures c in states[i].phases && states[i].phases[c].Looping? ==> FailuresBy(steps[..i], c) <= states[i].phases[c].peak
    ensures c !in states[i].phases || states[i].phases[c].Queued? || states[i].phases[c].Admitted? || states[i].phases[c].Counted? ==>
              FailuresBy(steps[..i], c) == 0
    decreases i
  {
    hide Inv, CountedSet, Holders;
    if i > 0 {
      LoopEnds(states, steps, i - 1, c);
      assert steps[..i][..i - 1] == steps[..i - 1];
      var s, step := states[i - 1], steps[i - 1];
      assert Enabled(s, step) && states[i] == Do(s, step);
      if step.ExchangeFails? && step.request == c {
        ExecutionInv(states, steps, i - 1);
        UndrainedRun(states, steps, i - 1);
        FailureRaisesView(s, c, step.index);
        PeaksWithinLimit(s, step.index);
      }
    }
  }

  lemma PeaksWithinLimit(s: State, k: nat)
    requires Inv(s) && k < |s.peaks|
    ensures s.peaks[k] <= s.limit
  {
    assert s.peaks[k] == 0 || s.peaks[k] in s.counts;
  }

  /** A request inside the loop can always take a step of its own. */
  lemma LoopNeverStuck(states: seq<State>, steps: seq<Step>, i: nat, c: nat)
    requires Execution(states, steps) && i < |states| && c in states[i].phases && states[i].phases[c].Looping?
    ensures Enabled(states[i], ExitLoop(c)) || Enabled(states[i], Exchange(c)) ||
            exists k :: Enabled(states[i], ExchangeFails(c, k))
  {
    ExecutionInv(states, steps, i);
    var s := states[i];
    assert PhaseFits(s, s.phases[c]);
    var newest: nat := |s.peaks| - 1;
    assert Enabled(s, ExitLoop(c)) || Enabled(s, Exchange(c)) || Enabled(s, ExchangeFails(c, newest));
  }

  /** A request that has seen a peak no lower than its count leaves the loop, and can do nothing else. */
  lemma LoopLeavesAtOnce(s: State, step: Step, c: nat)
    requires c in s.phases && s.phases[c].Looping? && s.phases[c].current <= s.phases[c].peak
    requires Enabled(s, step) && step != Drain && step.request == c
    ensures step == ExitLoop(c)
  {
  }

  /** A drain can come at any moment and starts the peak again from zero; nothing else changes. */
  lemma DrainResets(s: State)
    ensures Enabled(s, Drain) && Peak(Do(s, Drain)) == 0 && Do(s, Drain).(peaks := s.peaks) == s
  {
  }
}
