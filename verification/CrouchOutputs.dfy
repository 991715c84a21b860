/**
 What the outputs of the hook are, in numbers (native/vivoxproxy/crouch_parity_patch.h:590-727 and
 native/vivoxproxy/crouch_transition.h).

 A control of one half or more asks for the crouching pose, which has weight one; a smaller one asks for
 the standing pose, which has weight zero.
 */
module CrouchOutputs {
  import opened Basics
  import opened CrouchStateCache
  import opened CrouchTransition
  import opened CrouchHook
  import opened CrouchSimulation

  /** Calls of one network, built alike. */
  predicate Same(c: Call, d: Call) {
    c.network == d.network && c.generation == d.generation && c.controlGeneration == d.controlGeneration
  }

  predicate Asks(c: Call, crouch: bool) { if crouch then c.control >= 0.5 else c.control < 0.5 }

  function Full(crouch: bool): real { if crouch then 1.0 else 0.0 }

  /** `y` is at least as far on the way as `x`. */
  predicate Ahead(crouch: bool, x: real, y: real) { if crouch then x <= y else y <= x }

  predicate Carries(s: TransitionState, c: Call) { s.network != 0 && s.network == c.network && SameGeneration(s, c) }

  lemma AskedPose(c: Call, crouch: bool)
    requires Asks(c, crouch)
    ensures Desired(c.control) == Full(crouch)
  {
  }

  // ---------- Where a call lands ----------

  /** A call in terms of the full scan. */
  lemma StepIsScan(ease: real -> real, w: World, c: Call, frequency: int)
    requires frequency > 0 && |w.hints| > 0 && Unique(w.states)
    ensures var a := Acquire(w.states, 0, |w.states|, RequestOf(c, frequency));
            var (after, outcome) := HookStep(ease, w, c, frequency);
            && |after.hints| > 0
            && if a.slot.NoSlot? then after.states == w.states && outcome.Stock?
               else
                 && a.slot.index < |a.states| == |w.states|
                 && var s := BlendStep(ease, a.states[a.slot.index], c, frequency);
                    after.states == a.states[a.slot.index := s] && outcome == Weight(s.lastOutput)
  {
    hide BlendStep, Acquire, AcquireHint, UpdatedHints, Unique;
    HintRefinesScan(w.states, w.hints, RequestOf(c, frequency));
    AcquireFrame(w.states, RequestOf(c, frequency));
  }

  lemma HandedOutIsValid(s: seq<TransitionState>, r: Request)
    requires Acquire(s, 0, |s|, r).slot.Slot?
    ensures r.Valid()
  {
    hide AcquirePresent, AcquireAbsent, Find;
  }

  /** An answered call changes one slot: it goes on from the state there, if that is of the same network,
      built alike, and otherwise from a zeroed one. */
  lemma HookLands(ease: real -> real, w: World, c: Call, frequency: int) returns (i: nat)
    requires frequency > 0 && |w.hints| > 0 && Unique(w.states) && HookStep(ease, w, c, frequency).1.Weight?
    ensures c.network != 0 && i < |w.states| && (Holds(w.states, c.network) ==> w.states[i].network == c.network)
    ensures var (after, outcome) := HookStep(ease, w, c, frequency);
            var r := RequestOf(c, frequency);
            var s := after.states[..];
            && |after.hints| > 0 && |s| == |w.states| && s == w.states[i := s[i]]
            && s[i].network == c.network && SameGeneration(s[i], c) && outcome == Weight(s[i].lastOutput)
            && s[i].lastRaw == c.raw && s[i].lastControl == c.control
            && (s[i] == BlendStep(ease, ResetState(r), c, frequency)
                || (Carries(w.states[i], c) && s[i] == BlendStep(ease, Touched(w.states[i], r), c, frequency)))
  {
    hide BlendStep, HookStep, Acquire, IsActive, IsStale, Unique;
    var states, r := w.states, RequestOf(c, frequency);
    StepIsScan(ease, w, c, frequency);
    HandedOutIsValid(states, r);
    AcquireFrame(states, r);
    AcquiredState(states, r);
    var a := Acquire(states, 0, |states|, r);
    i := a.slot.index;
    StepKeepsIdentity(ease, a.states[i], c, frequency);
  }

  lemma StepKeepsIdentity(ease: real -> real, s: TransitionState, c: Call, frequency: int)
    requires frequency > 0
    ensures var r := BlendStep(ease, s, c, frequency);
            && r.network == s.network && r.generation == s.generation && r.controlGeneration == s.controlGeneration
            && r.lastRaw == c.raw && r.lastControl == c.control
  {
    hide Travel, MoveWeight;
  }

  /** A call never gives a network a second slot. */
  lemma StepKeepsUnique(ease: real -> real, w: World, c: Call, frequency: int)
    requires frequency > 0 && |w.hints| > 0 && Unique(w.states)
    ensures Unique(HookStep(ease, w, c, frequency).0.states)
  {
    hide BlendStep, HookStep;
    StepIsScan(ease, w, c, frequency);
    if HookStep(ease, w, c, frequency).1.Weight? {
      var i := HookLands(ease, w, c, frequency);
      OneNetworkEach(w.states, i, HookStep(ease, w, c, frequency).0.states[i]);
    }
  }

  /** A network that takes over a slot had none. */
  lemma OneNetworkEach(s: seq<TransitionState>, i: nat, t: TransitionState)
    requires Unique(s) && i < |s| && t.network != 0 && (Holds(s, t.network) ==> s[i].network == t.network)
    ensures Unique(s[i := t])
    ensures forall j :: 0 <= j < |s| && j != i ==> s[j].network != t.network
  {
  }

  // ---------- One command throughout ----------

  /** The states of a network that was only asked for one pose. */
  ghost predicate Steady(states: seq<TransitionState>, c: Call, crouch: bool) {
    forall i :: 0 <= i < |states| && Carries(states[i], c) ==>
                  states[i].initialized && !states[i].transitioning && states[i].target == Full(crouch)
  }

  lemma FreshStep(ease: real -> real, c: Call, crouch: bool, frequency: int)
    requires frequency > 0 && Asks(c, crouch)
    ensures var s := BlendStep(ease, ResetState(RequestOf(c, frequency)), c, frequency);
            s.initialized && !s.transitioning && s.target == Full(crouch) && s.lastOutput == Full(crouch)
  {
  }

  lemma SteadyStep(ease: real -> real, s: TransitionState, c: Call, crouch: bool, frequency: int)
    requires frequency > 0 && Asks(c, crouch) && s.initialized && !s.transitioning && s.target == Full(crouch)
    ensures var t := BlendStep(ease, Touched(s, RequestOf(c, frequency)), c, frequency);
            t.initialized && !t.transitioning && t.target == Full(crouch) && t.lastOutput == Full(crouch)
  {
  }

  lemma SteadyNext(ease: real -> real, w: World, d: Call, c: Call, crouch: bool, frequency: int)
    requires frequency > 0 && |w.hints| > 0 && Unique(w.states)
    requires Steady(w.states, c, crouch) && (Same(d, c) ==> Asks(d, crouch))
    ensures var (after, outcome) := HookStep(ease, w, d, frequency);
            && |after.hints| > 0 && Unique(after.states) && Steady(after.states, c, crouch)
            && (Same(d, c) && outcome.Weight? ==> outcome.output == Full(crouch))
  {
    hide HookStep, BlendStep, Unique;
    StepKeepsUnique(ease, w, d, frequency);
    if HookStep(ease, w, d, frequency).1.Stock? {
      StepIsScan(ease, w, d, frequency);
    } else {
      var i := HookLands(ease, w, d, frequency);
      if Same(d, c) {
        FreshStep(ease, d, crouch, frequency);
        if Carries(w.states[i], c) {
          SteadyStep(ease, w.states[i], d, crouch, frequency);
        }
      }
    }
  }

  lemma {:induction false} SteadyRun(ease: real -> real, capacity: nat, hints: seq<nat>, calls: seq<Call>, k: nat,
                                     c: Call, crouch: bool, frequency: int)
    requires frequency > 0 && |hints| > 0 && k <= |calls|
    requires forall j :: 0 <= j < k && Same(calls[j], c) ==> Asks(calls[j], crouch)
    ensures var w := HookRun(ease, capacity, hints, calls, k, frequency);
            |w.hints| > 0 && Unique(w.states) && Steady(w.states, c, crouch)
  {
    hide HookStep;
    if k > 0 {
      SteadyRun(ease, capacity, hints, calls, k - 1, c, crouch, frequency);
      SteadyNext(ease, HookRun(ease, capacity, hints, calls, k - 1, frequency), calls[k - 1], c, crouch, frequency);
    }
  }

  /** The weight that answers the `k`-th call. */
  function OutputAt(ease: real -> real, capacity: nat, hints: seq<nat>, calls: seq<Call>, k: nat, frequency: int): real
    requires frequency > 0 && |hints| > 0 && k < |calls|
    requires Answered(ease, capacity, hints, calls, k, frequency)
  {
    HookStep(ease, HookRun(ease, capacity, hints, calls, k, frequency), calls[k], frequency).1.output
  }

  lemma OnePoseThroughout(ease: real -> real, capacity: nat, hints: seq<nat>, calls: seq<Call>, k: nat, crouch: bool,
                          frequency: int)
    requires frequency > 0 && |hints| > 0 && k < |calls| && Answered(ease, capacity, hints, calls, k, frequency)
    requires forall j :: 0 <= j <= k && Same(calls[j], calls[k]) ==> Asks(calls[j], crouch)
    ensures OutputAt(ease, capacity, hints, calls, k, frequency) == Full(crouch)
  {
    hide HookStep;
    SteadyRun(ease, capacity, hints, calls, k, calls[k], crouch, frequency);
    SteadyNext(ease, HookRun(ease, capacity, hints, calls, k, frequency), calls[k], calls[k], crouch, frequency);
  }

  /** A network that is only ever asked to crouch is answered with weight one. */
  lemma CrouchingThroughout(ease: real -> real, capacity: nat, hints: seq<nat>, calls: seq<Call>, k: nat,
                            frequency: int)
    requires frequency > 0 && |hints| > 0 && k < |calls| && Answered(ease, capacity, hints, calls, k, frequency)
    requires forall j :: 0 <= j <= k && Same(calls[j], calls[k]) ==> calls[j].control >= 0.5
    ensures OutputAt(ease, capacity, hints, calls, k, frequency) == 1.0
  {
    OnePoseThroughout(ease, capacity, hints, calls, k, true, frequency);
  }

  /** One that is only ever asked to stand, with weight zero. */
  lemma StandingThroughout(ease: real -> real, capacity: nat, hints: seq<nat>, calls: seq<Call>, k: nat, frequency: int)
    requires frequency > 0 && |hints| > 0 && k < |calls| && Answered(ease, capacity, hints, calls, k, frequency)
    requires forall j :: 0 <= j <= k && Same(calls[j], calls[k]) ==> calls[j].control < 0.5
    ensures OutputAt(ease, capacity, hints, calls, k, frequency) == 0.0
  {
    OnePoseThroughout(ease, capacity, hints, calls, k, false, frequency);
  }

  // ---------- After the command has changed ----------

  /** The call that a state is as good as the last of. */
  function LastOf(s: TransitionState): Call {
    Call(s.network, s.generation, s.controlGeneration, 0.0, s.target, false, s.lastSeenCounter, 0)
  }

  /** What holds of every state in the table. */
  ghost predicate Remembers(ease: real -> real, s: TransitionState, now: int, frequency: int)
    requires frequency > 0
  {
    Kept(ease, s, LastOf(s), frequency) && s.lastSeenCounter <= now
  }

  ghost predicate AllRemember(ease: real -> real, w: World, now: int, frequency: int)
    requires frequency > 0
  {
    && |w.hints| > 0 && Unique(w.states)
    && forall i :: 0 <= i < |w.states| && w.states[i].network != 0 ==> Remembers(ease, w.states[i], now, frequency)
  }

  /** A state that is kept for a call is kept for itself. */
  lemma KeptForItself(ease: real -> real, s: TransitionState, c: Call, frequency: int)
    requires frequency > 0 && Kept(ease, s, c, frequency)
    ensures Remembers(ease, s, c.now, frequency)
  {
    hide Blending;
  }

  lemma LaterRemembers(ease: real -> real, w: World, now: int, later: int, frequency: int)
    requires frequency > 0 && AllRemember(ease, w, now, frequency) && now <= later
    ensures AllRemember(ease, w, later, frequency)
  {
    hide Kept;
  }

  /** A slot after a call. */
  lemma LandedIsKept(ease: real -> real, w: World, now: int, c: Call, i: nat, frequency: int)
    requires frequency > 0 && Easing(ease) && AllRemember(ease, w, now, frequency) && now <= c.now
    requires i < |w.states| && Carries(w.states[i], c)
    ensures Kept(ease, BlendStep(ease, Touched(w.states[i], RequestOf(c, frequency)), c, frequency), c, frequency)
  {
    hide BlendStep, Kept;
    assert Remembers(ease, w.states[i], now, frequency);
    ContinuedIsKept(ease, w.states[i], LastOf(w.states[i]), c, frequency);
  }

  lemma NextRemembers(ease: real -> real, w: World, now: int, c: Call, frequency: int)
    requires frequency > 0 && Easing(ease) && AllRemember(ease, w, now, frequency) && now <= c.now
    ensures AllRemember(ease, HookStep(ease, w, c, frequency).0, c.now, frequency)
    ensures HookStep(ease, w, c, frequency).1.Weight? ==>
              exists i :: 0 <= i < |w.states|
                          && Kept(ease, HookStep(ease, w, c, frequency).0.states[i], c, frequency)
  {
    hide HookStep, BlendStep, Kept;
    LaterRemembers(ease, w, now, c.now, frequency);
    if HookStep(ease, w, c, frequency).1.Stock? {
      StepIsScan(ease, w, c, frequency);
    } else {
      var i := HookLands(ease, w, c, frequency);
      FreshIsKept(ease, c, frequency);
      if Carries(w.states[i], c) {
        LandedIsKept(ease, w, now, c, i, frequency);
      }
      var after := HookStep(ease, w, c, frequency).0.states;
      KeptForItself(ease, after[i], c, frequency);
      OneNetworkEach(w.states, i, after[i]);
      assert Kept(ease, after[i], c, frequency);
    }
  }

  lemma {:induction false} RunRemembers(ease: real -> real, capacity: nat, hints: seq<nat>, calls: seq<Call>, k: nat,
                                        frequency: int)
    requires frequency > 0 && Easing(ease) && |hints| > 0 && WellTimed(calls) && k <= |calls|
    ensures AllRemember(ease, HookRun(ease, capacity, hints, calls, k, frequency), NowBefore(calls, k), frequency)
  {
    hide HookStep, Kept;
    if k > 0 {
      RunRemembers(ease, capacity, hints, calls, k - 1, frequency);
      NextRemembers(ease, HookRun(ease, capacity, hints, calls, k - 1, frequency), NowBefore(calls, k - 1),
                    calls[k - 1], frequency);
    }
  }

  /** The states of a network since it was asked for a pose: they blend to that pose, have come at least
      so far, and began no later. */
  ghost predicate Heading(states: seq<TransitionState>, c: Call, crouch: bool, from: real, since: int) {
    forall i :: 0 <= i < |states| && Carries(states[i], c) ==>
      && states[i].target == Full(crouch) && Ahead(crouch, from, states[i].lastOutput)
      && (states[i].transitioning ==> states[i].startCounter <= since)
  }

  /** The call that asks for the pose. */
  lemma HeadingStarts(ease: real -> real, w: World, now: int, c: Call, crouch: bool, frequency: int)
    requires frequency > 0 && Easing(ease) && AllRemember(ease, w, now, frequency) && now <= c.now
    requires Asks(c, crouch) && HookStep(ease, w, c, frequency).1.Weight?
    ensures var (after, outcome) := HookStep(ease, w, c, frequency);
            0.0 <= outcome.output <= 1.0 && Heading(after.states, c, crouch, outcome.output, c.now)
  {
    hide HookStep, BlendStep, Blending;
    var i := HookLands(ease, w, c, frequency);
    FreshIsKept(ease, c, frequency);
    AskedPose(c, crouch);
    if Carries(w.states[i], c) {
      LandedIsKept(ease, w, now, c, i, frequency);
    }
    var after := HookStep(ease, w, c, frequency).0.states;
    OneNetworkEach(w.states, i, after[i]);
  }

  /** A state that blends to the pose it is asked for goes on doing so. */
  lemma HeadingStep(ease: real -> real, s: TransitionState, now: int, c: Call, crouch: bool, frequency: int)
    requires frequency > 0 && Easing(ease) && Remembers(ease, s, now, frequency) && now <= c.now
    requires Asks(c, crouch) && s.target == Full(crouch)
    ensures var t := BlendStep(ease, Touched(s, RequestOf(c, frequency)), c, frequency);
            && t.target == Full(crouch) && Ahead(crouch, s.lastOutput, t.lastOutput)
            && (t.transitioning ==> s.transitioning && t.startCounter == s.startCounter)
            && (s.transitioning && c.now >= s.transitionEndCounter ==> t.lastOutput == Full(crouch))
            && (!s.transitioning ==> t.lastOutput == Full(crouch))
  {
    var t, tick := Touched(s, RequestOf(c, frequency)), Tick(c.now, c.moving);
    BlendingReads(ease, s, t, frequency);
    AskedPose(c, crouch);
    TickKeeps(ease, t, tick, frequency);
    if s.transitioning {
      OutputAdvances(ease, t, c.now, frequency);
      if c.now >= s.transitionEndCounter {
        TickDeadline(ease, t, tick, frequency);
      }
      AdvanceIsTick(ease, t, tick, frequency);
    }
    hide Advance, TickStep, Blending;
  }

  lemma AdvanceIsTick(ease: real -> real, s: TransitionState, tick: Tick, frequency: int)
    requires frequency > 0
    ensures TickStep(ease, s, tick, frequency).lastOutput == Advance(ease, s, tick.now, frequency).lastOutput
  {
    hide Evaluate;
  }

  /** Each later call of the network. */
  lemma HeadingNext(ease: real -> real, w: World, now: int, d: Call, c: Call, crouch: bool, from: real, since: int,
                    frequency: int)
    requires frequency > 0 && Easing(ease) && AllRemember(ease, w, now, frequency) && now <= d.now
    requires 0.0 <= from <= 1.0 && Heading(w.states, c, crouch, from, since) && (Same(d, c) ==> Asks(d, crouch))
    ensures var (after, outcome) := HookStep(ease, w, d, frequency);
            && Heading(after.states, c, crouch, from, since)
            && (Same(d, c) && outcome.Weight? ==> Ahead(crouch, from, outcome.output))
  {
    hide HookStep, BlendStep, Kept;
    if HookStep(ease, w, d, frequency).1.Stock? {
      StepIsScan(ease, w, d, frequency);
    } else {
      var i := HookLands(ease, w, d, frequency);
      if Same(d, c) {
        FreshStep(ease, d, crouch, frequency);
        if Carries(w.states[i], c) {
          HeadingStep(ease, w.states[i], now, d, crouch, frequency);
        }
      }
    }
  }

  lemma {:induction false} HeadingRun(ease: real -> real, capacity: nat, hints: seq<nat>, calls: seq<Call>, m: nat,
                                      k: nat, crouch: bool, frequency: int)
    requires frequency > 0 && Easing(ease) && |hints| > 0 && WellTimed(calls) && m < k <= |calls|
    requires Answered(ease, capacity, hints, calls, m, frequency)
    requires forall j :: m <= j < k && Same(calls[j], calls[m]) ==> Asks(calls[j], crouch)
    ensures var output := OutputAt(ease, capacity, hints, calls, m, frequency);
            && 0.0 <= output <= 1.0
            && Heading(HookRun(ease, capacity, hints, calls, k, frequency).states, calls[m], crouch, output,
                       calls[m].now)
    decreases k
  {
    hide HookStep, Heading;
    var w := HookRun(ease, capacity, hints, calls, k - 1, frequency);
    RunRemembers(ease, capacity, hints, calls, k - 1, frequency);
    if k - 1 == m {
      HeadingStarts(ease, w, NowBefore(calls, k - 1), calls[m], crouch, frequency);
    } else {
      HeadingRun(ease, capacity, hints, calls, m, k - 1, crouch, frequency);
      HeadingNext(ease, w, NowBefore(calls, k - 1), calls[k - 1], calls[m], crouch,
                  OutputAt(ease, capacity, hints, calls, m, frequency), calls[m].now, frequency);
    }
  }

  /** So long, at most, does a whole blend take: 0.4 seconds down, a quarter of a second up. */
  function Longest(crouch: bool): real { if crouch then 0.4000000059604645 else 0.25 }

  lemma LongestIsSlow(crouch: bool)
    ensures SlowSeconds(Full(crouch)) == Longest(crouch)
  {
  }

  /** A blend that began so long ago is over. */
  lemma LongAgoIsOver(ease: real -> real, s: TransitionState, now: int, since: int, later: int, crouch: bool,
                      frequency: int)
    requires frequency > 0 && Remembers(ease, s, now, frequency) && s.transitioning
    requires s.target == Full(crouch) && s.startCounter <= since
    requires Seconds(later - since, frequency) >= Longest(crouch)
    ensures later >= s.transitionEndCounter
  {
    LongestIsSlow(crouch);
    assert Distance(s) <= 1.0;
    SecondsAdd(later - since, since - s.startCounter, frequency);
    Scale(Longest(crouch), Distance(s), 1.0);
    LeastTicks(Distance(s) * SlowSeconds(s.target), later - s.startCounter, frequency);
    hide SlowSeconds, Seconds, InStep, Posed, Distance, Ceil;
  }

  lemma Arrives(ease: real -> real, w: World, now: int, c: Call, crouch: bool, from: real, since: int, frequency: int)
    requires frequency > 0 && Easing(ease) && AllRemember(ease, w, now, frequency) && now <= c.now
    requires 0.0 <= from <= 1.0 && Heading(w.states, c, crouch, from, since) && Asks(c, crouch)
    requires HookStep(ease, w, c, frequency).1.Weight? && Seconds(c.now - since, frequency) >= Longest(crouch)
    ensures HookStep(ease, w, c, frequency).1.output == Full(crouch)
  {
    hide HookStep, BlendStep, Kept, Seconds, Longest;
    var i := HookLands(ease, w, c, frequency);
    FreshStep(ease, c, crouch, frequency);
    if Carries(w.states[i], c) {
      HeadingStep(ease, w.states[i], now, c, crouch, frequency);
      if w.states[i].transitioning {
        LongAgoIsOver(ease, w.states[i], now, since, c.now, crouch, frequency);
      }
    }
  }

  lemma FollowsTheCommand(ease: real -> real, capacity: nat, hints: seq<nat>, calls: seq<Call>, m: nat, k: nat,
                          crouch: bool, frequency: int)
    requires frequency > 0 && Easing(ease) && |hints| > 0 && WellTimed(calls) && m < k < |calls|
    requires Same(calls[k], calls[m]) && forall j :: m <= j <= k && Same(calls[j], calls[m]) ==> Asks(calls[j], crouch)
    requires Answered(ease, capacity, hints, calls, m, frequency)
    requires Answered(ease, capacity, hints, calls, k, frequency)
    ensures var x := OutputAt(ease, capacity, hints, calls, m, frequency);
            var y := OutputAt(ease, capacity, hints, calls, k, frequency);
            && 0.0 <= x <= 1.0 && Ahead(crouch, x, y) && 0.0 <= y <= 1.0
            && (Seconds(calls[k].now - calls[m].now, frequency) >= Longest(crouch) ==> y == Full(crouch))
  {
    hide HookStep, Heading, Seconds, Longest, AllRemember, HookRun;
    var x := OutputAt(ease, capacity, hints, calls, m, frequency);
    var w := HookRun(ease, capacity, hints, calls, k, frequency);
    RunRemembers(ease, capacity, hints, calls, k, frequency);
    HeadingRun(ease, capacity, hints, calls, m, k, crouch, frequency);
    SameCall(calls[m], calls[k], w.states, crouch, x, calls[m].now);
    HeadingNext(ease, w, NowBefore(calls, k), calls[k], calls[k], crouch, x, calls[m].now, frequency);
    HeadingStarts(ease, w, NowBefore(calls, k), calls[k], crouch, frequency);
    if Seconds(calls[k].now - calls[m].now, frequency) >= Longest(crouch) {
      Arrives(ease, w, NowBefore(calls, k), calls[k], crouch, x, calls[m].now, frequency);
    }
  }

  lemma SameCall(c: Call, d: Call, states: seq<TransitionState>, crouch: bool, from: real, since: int)
    requires Same(d, c) && Heading(states, c, crouch, from, since)
    ensures Heading(states, d, crouch, from, since)
  {
  }

  /** From a call on that asks a network to crouch, as long as no other asks it to stand, the weights only
      rise, and 0.4 seconds later they are one, whatever moves and whatever is evicted in between. */
  lemma CrouchingArrives(ease: real -> real, capacity: nat, hints: seq<nat>, calls: seq<Call>, m: nat, k: nat,
                         frequency: int)
    requires frequency > 0 && Easing(ease) && |hints| > 0 && WellTimed(calls) && m < k < |calls|
    requires Same(calls[k], calls[m])
    requires forall j :: m <= j <= k && Same(calls[j], calls[m]) ==> calls[j].control >= 0.5
    requires Answered(ease, capacity, hints, calls, m, frequency)
    requires Answered(ease, capacity, hints, calls, k, frequency)
    ensures var x := OutputAt(ease, capacity, hints, calls, m, frequency);
            var y := OutputAt(ease, capacity, hints, calls, k, frequency);
            0.0 <= x <= y <= 1.0 && (Seconds(calls[k].now - calls[m].now, frequency) >= 0.4000000059604645 ==> y == 1.0)
  {
    FollowsTheCommand(ease, capacity, hints, calls, m, k, true, frequency);
    hide OutputAt;
  }

  /** From a call on that asks it to stand they only fall, and a quarter of a second later they are
      zero. */
  lemma StandingArrives(ease: real -> real, capacity: nat, hints: seq<nat>, calls: seq<Call>, m: nat, k: nat,
                        frequency: int)
    requires frequency > 0 && Easing(ease) && |hints| > 0 && WellTimed(calls) && m < k < |calls|
    requires Same(calls[k], calls[m])
    requires forall j :: m <= j <= k && Same(calls[j], calls[m]) ==> calls[j].control < 0.5
    requires Answered(ease, capacity, hints, calls, m, frequency)
    requires Answered(ease, capacity, hints, calls, k, frequency)
    ensures var x := OutputAt(ease, capacity, hints, calls, m, frequency);
            var y := OutputAt(ease, capacity, hints, calls, k, frequency);
            0.0 <= y <= x <= 1.0 && (Seconds(calls[k].now - calls[m].now, frequency) >= 0.25 ==> y == 0.0)
  {
    FollowsTheCommand(ease, capacity, hints, calls, m, k, false, frequency);
    hide OutputAt;
  }

  // ---------- The two paces ----------

  /** With no moving node ever seen, a whole blend down takes 0.4 seconds, and one up 0.2 seconds. */
  lemma StillPace(s: TransitionState, now: int, frequency: int)
    requires frequency > 0 && !s.moveSeen
    ensures var elapsed := Seconds(now - s.evaluatedCounter, frequency);
            && (s.target == 1.0 ==> Travel(s, now, frequency) * 0.4000000059604645 == elapsed)
            && (s.target == 0.0 ==> Travel(s, now, frequency) * 0.20000000298023224 == elapsed)
  {
    hide Seconds;
  }

  /** Within a tenth of a second after a moving node, either takes a quarter of a second. */
  lemma MovingPace(s: TransitionState, now: int, frequency: int)
    requires frequency > 0 && s.moveSeen && s.lastMoveCounter <= s.evaluatedCounter <= now
    requires Seconds(now - s.lastMoveCounter, frequency) <= 0.1
    ensures Travel(s, now, frequency) * 0.25 == Seconds(now - s.evaluatedCounter, frequency)
  {
    SecondsAdd(now - s.evaluatedCounter, s.evaluatedCounter - s.lastMoveCounter, frequency);
    hide Seconds;
  }
}
