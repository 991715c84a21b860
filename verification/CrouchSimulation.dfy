/**
 The bounded, forgetting table of blend states against one that is unbounded and never forgets.

 The hook keeps 256 states, resets a state that was not seen for two seconds, and evicts such
 states to make room.  The reference below keeps one state per network forever.  The main
 theorem, `ForgettingIsInvisible`, says exactly when the two produce the same outputs.
 */
module CrouchSimulation {
  import opened Basics
  import opened CrouchStateCache
  import opened CrouchTransition
  import opened CrouchHook

  // ---------- The reference ----------

  type Table = map<Pointer, TransitionState>

  predicate SameGeneration(s: TransitionState, c: Call) {
    s.generation == c.generation && s.controlGeneration == c.controlGeneration
  }

  /** The state the reference continues from: the network's own, unless it was rebuilt. */
  function Entry(table: Table, c: Call, frequency: int): TransitionState
    requires frequency > 0
  {
    var r := RequestOf(c, frequency);
    if c.network in table && SameGeneration(table[c.network], c) then Touched(table[c.network], r)
    else ResetState(r)
  }

  function Continue(ease: real -> real, table: Table, c: Call, frequency: int): TransitionState
    requires frequency > 0
  {
    BlendStep(ease, Entry(table, c, frequency), c, frequency)
  }

  // ---------- What holds of every remembered state ----------

  /** What the reference knows of a network whose latest accepted call is `c`. */
  ghost predicate Kept(ease: real -> real, s: TransitionState, c: Call, frequency: int)
    requires frequency > 0
  {
    && s.initialized
    && s.network == c.network && SameGeneration(s, c)
    && s.lastSeenCounter == c.now
    && s.target == Desired(c.control)
    && 0.0 <= s.lastOutput <= 1.0
    && 0.0 <= s.startOutput <= 1.0
    && s.startCounter <= c.now
    && (s.transitioning ==> s.evaluatedCounter <= c.now)
    && (s.moveSeen ==> s.lastMoveCounter <= c.now)
    && Blending(ease, s, frequency)
  }

  /** Two states that agree on everything a blend reads. */
  ghost predicate SameInputs(s: TransitionState, r: TransitionState) {
    && s.target == r.target && s.startOutput == r.startOutput && s.phase == r.phase
    && s.startCounter == r.startCounter && s.evaluatedCounter == r.evaluatedCounter
    && s.transitionEndCounter == r.transitionEndCounter
    && s.transitioning == r.transitioning && s.lastOutput == r.lastOutput
  }

  lemma BlendingReads(ease: real -> real, s: TransitionState, r: TransitionState, frequency: int)
    requires frequency > 0 && SameInputs(s, r) && Blending(ease, s, frequency)
    ensures Blending(ease, r, frequency)
  {
    hide PoseAt, InPace, Seconds, Share, SlowSeconds, Ceil;
    if s.transitioning {
      SamePlan(s, r, frequency);
      hide Scheduled;
    }
  }

  /** A state in its first call. */
  lemma FreshIsKept(ease: real -> real, c: Call, frequency: int)
    requires frequency > 0
    ensures var s := BlendStep(ease, ResetState(RequestOf(c, frequency)), c, frequency);
            && Kept(ease, s, c, frequency)
            && !s.transitioning
            && s.lastOutput == Desired(c.control)
            && (s.moveSeen <==> c.moving) && (s.moveSeen ==> s.lastMoveCounter == c.now)
  {
  }

  /** A state in a later call. */
  lemma ContinuedIsKept(ease: real -> real, s: TransitionState, p: Call, c: Call, frequency: int)
    requires frequency > 0 && Easing(ease) && Kept(ease, s, p, frequency)
    requires c.network == p.network && SameGeneration(s, c) && p.now <= c.now
    ensures Kept(ease, BlendStep(ease, Touched(s, RequestOf(c, frequency)), c, frequency), c, frequency)
  {
    var t := Touched(s, RequestOf(c, frequency));
    var tick := Tick(c.now, c.moving);
    BlendingReads(ease, s, t, frequency);
    TickBlends(ease, t, tick, frequency);
    TickKeeps(ease, t, tick, frequency);
    var here := TickStep(ease, t, tick, frequency);
    var desired := Desired(c.control);
    var next := if desired != here.target then Start(here, here.lastOutput, desired, c.now, frequency) else here;
    if desired != here.target {
      StartBlends(ease, here, here.lastOutput, desired, c.now, frequency);
      StartKeeps(here, here.lastOutput, desired, c.now, frequency);
    }
    BlendingReads(ease, next, next.(lastRaw := c.raw, lastControl := c.control), frequency);
    hide Blending, TickStep, Start;
  }

  /** The fields a tick leaves alone, and where it can leave the others. */
  lemma TickKeeps(ease: real -> real, s: TransitionState, tick: Tick, frequency: int)
    requires frequency > 0 && Easing(ease) && Blending(ease, s, frequency)
    requires 0.0 <= s.target <= 1.0 && 0.0 <= s.lastOutput <= 1.0
    requires s.transitioning ==> s.evaluatedCounter <= tick.now
    ensures var r := TickStep(ease, s, tick, frequency);
            && r == s.(lastOutput := r.lastOutput, phase := r.phase, evaluatedCounter := r.evaluatedCounter,
                       transitioning := r.transitioning, transitionEndCounter := r.transitionEndCounter,
                       moveSeen := s.moveSeen || tick.moving,
                       lastMoveCounter := if tick.moving then tick.now else s.lastMoveCounter)
            && 0.0 <= r.lastOutput <= 1.0
            && (r.transitioning ==> s.transitioning && r.evaluatedCounter == tick.now)
            && (!s.transitioning ==> r.lastOutput == s.target)
  {
    if s.transitioning {
      OutputAdvances(ease, s, tick.now, frequency);
      hide Blending;
    }
  }

  lemma StartKeeps(s: TransitionState, output: real, desired: real, now: int, frequency: int)
    requires frequency > 0
    ensures var r := Start(s, output, desired, now, frequency);
            && r == s.(startOutput := output, target := desired, durationSeconds := r.durationSeconds,
                       startCounter := now, evaluatedCounter := now, phase := 0.0,
                       transitioning := r.transitioning, transitionEndCounter := r.transitionEndCounter)
  {
  }

  // ---------- When a forgetful state is as good as a remembering one ----------

  /** No node observed so far can influence an interval that starts now. */
  ghost predicate Faded(s: TransitionState, frequency: int)
    requires frequency > 0
  {
    s.moveSeen ==>
      && Seconds(s.lastSeenCounter - s.lastMoveCounter, frequency) >= 2.0 * MOVE_RECENT_SECONDS
      && (s.transitioning ==>
            Seconds(s.evaluatedCounter - s.lastMoveCounter, frequency) >= 2.0 * MOVE_RECENT_SECONDS)
  }

  ghost predicate Related(a: TransitionState, b: TransitionState, frequency: int)
    requires frequency > 0
  {
    && a.initialized && b.initialized
    && a.network == b.network && a.generation == b.generation && a.controlGeneration == b.controlGeneration
    && a.lastSeenCounter == b.lastSeenCounter
    && a.target == b.target && a.lastOutput == b.lastOutput
    && a.transitioning == b.transitioning
    && (a.transitioning ==> SameInputs(a, b))
    && MoveRelated(a, b, frequency)
  }

  ghost predicate MoveRelated(a: TransitionState, b: TransitionState, frequency: int)
    requires frequency > 0
  {
    (a.moveSeen == b.moveSeen && a.lastMoveCounter == b.lastMoveCounter) ||
    (Faded(a, frequency) && Faded(b, frequency))
  }

  /** Related states travel the same distance. */
  lemma RelatedTravel(a: TransitionState, b: TransitionState, now: int, frequency: int)
    requires frequency > 0 && SameInputs(a, b) && MoveRelated(a, b, frequency)
    requires a.transitioning && now >= a.evaluatedCounter
    ensures Travel(a, now, frequency) == Travel(b, now, frequency)
  {
    if a.moveSeen == b.moveSeen && a.lastMoveCounter == b.lastMoveCounter {
      TravelIgnores(a, b, now, frequency);
    } else {
      FadedArea(a, now, frequency);
      FadedArea(b, now, frequency);
      hide Covered, Seconds, MoveArea;
    }
  }

  lemma FadedArea(s: TransitionState, now: int, frequency: int)
    requires frequency > 0 && Faded(s, frequency) && s.transitioning && now >= s.evaluatedCounter
    ensures MovingArea(s, now, frequency) == 0.0
  {
    SecondsAdd(now - s.evaluatedCounter, s.evaluatedCounter - s.lastMoveCounter, frequency);
    hide Seconds;
  }

  /** Related states tick alike. */
  lemma RelatedTick(ease: real -> real, a: TransitionState, b: TransitionState, r: Request, moving: bool,
                    frequency: int)
    requires frequency > 0 && Related(a, b, frequency) && r.now >= a.lastSeenCounter
    requires a.transitioning ==> a.evaluatedCounter <= r.now
    ensures Related(TickStep(ease, Touched(a, r), Tick(r.now, moving), frequency),
                    TickStep(ease, Touched(b, r), Tick(r.now, moving), frequency), frequency)
  {
    var s, t := Touched(a, r), Touched(b, r);
    TouchedFaded(a, r, frequency);
    TouchedFaded(b, r, frequency);
    if a.transitioning {
      RelatedTravel(s, t, r.now, frequency);
      TravelOn(s, t, r.now, Travel(s, r.now, frequency));
      AdvancedFaded(ease, s, r.now, frequency);
      AdvancedFaded(ease, t, r.now, frequency);
    }
    hide Seconds, Travel, Moved, PoseAt, Faded;
    var u, v := Advance(ease, s, r.now, frequency), Advance(ease, t, r.now, frequency);
    assert Related(u, v, frequency);
  }

  lemma TravelOn(s: TransitionState, t: TransitionState, now: int, travel: real)
    requires SameInputs(s, t)
    ensures var m, n := Moved(s, now, travel), Moved(t, now, travel);
            SameInputs(m, n)
  {
  }

  lemma TouchedFaded(s: TransitionState, r: Request, frequency: int)
    requires frequency > 0 && r.now >= s.lastSeenCounter
    ensures Faded(s, frequency) ==> Faded(Touched(s, r), frequency)
  {
    SecondsAdd(r.now - s.lastSeenCounter, s.lastSeenCounter - s.lastMoveCounter, frequency);
  }

  lemma AdvancedFaded(ease: real -> real, s: TransitionState, now: int, frequency: int)
    requires frequency > 0 && now == s.lastSeenCounter && s.transitioning
    ensures Faded(s, frequency) ==> Faded(Advance(ease, s, now, frequency), frequency)
  {
    hide Seconds, Travel;
  }

  /** Related states that are started alike stay related. */
  lemma RelatedStart(a: TransitionState, b: TransitionState, output: real, desired: real, now: int, frequency: int)
    requires frequency > 0 && Related(a, b, frequency) && now == a.lastSeenCounter
    ensures Related(Start(a, output, desired, now, frequency), Start(b, output, desired, now, frequency), frequency)
  {
    StartKeeps(a, output, desired, now, frequency);
    StartKeeps(b, output, desired, now, frequency);
    StartDistance(a, output, desired, now, frequency);
    StartDistance(b, output, desired, now, frequency);
    hide MoveWeight, IdleSeconds;
  }

  /** A call treats related states alike. */
  lemma RelatedStep(ease: real -> real, a: TransitionState, b: TransitionState, c: Call, frequency: int)
    requires frequency > 0 && Related(a, b, frequency) && c.now >= a.lastSeenCounter
    requires a.transitioning ==> a.evaluatedCounter <= c.now
    ensures var r := RequestOf(c, frequency);
            Related(BlendStep(ease, Touched(a, r), c, frequency),
                    BlendStep(ease, Touched(b, r), c, frequency), frequency)
  {
    var r := RequestOf(c, frequency);
    var tick := Tick(c.now, c.moving);
    RelatedTick(ease, a, b, r, c.moving, frequency);
    var s, t := TickStep(ease, Touched(a, r), tick, frequency), TickStep(ease, Touched(b, r), tick, frequency);
    TickSeen(ease, Touched(a, r), tick, frequency);
    RelatedStart(s, t, s.lastOutput, Desired(c.control), c.now, frequency);
    hide TickStep, Start, Seconds;
  }

  lemma TickSeen(ease: real -> real, s: TransitionState, tick: Tick, frequency: int)
    requires frequency > 0
    ensures TickStep(ease, s, tick, frequency).lastSeenCounter == s.lastSeenCounter
    ensures TickStep(ease, s, tick, frequency).initialized == s.initialized
  {
    hide Travel;
  }

  /** Whatever the cache may evict or reset for its age has already reached its target. */
  lemma EvictableIsAtItsTarget(ease: real -> real, s: TransitionState, r: Request, frequency: int)
    requires frequency > 0 && Blending(ease, s, frequency) && Evictable(s, r)
    ensures Evaluate(ease, s, r.now, frequency).output == s.target
  {
    if s.transitioning {
      DeadlineCompletes(ease, s, r.now, frequency);
    }
  }

  /** Two seconds after it was last seen, no blend is active. */
  lemma StaleIsOver(ease: real -> real, s: TransitionState, p: Call, now: int, frequency: int)
    requires frequency > 0 && Kept(ease, s, p, frequency) && now - p.now > StaleTicks(frequency)
    ensures s.transitioning ==> s.transitionEndCounter <= now
  {
    if s.transitioning {
      ShortDeadline(Distance(s), SlowSeconds(s.target), frequency);
      hide InStep, Posed;
    }
  }

  lemma ShortDeadline(distance: real, slow: real, frequency: int)
    requires frequency > 0 && 0.0 <= distance <= 1.0 && 0.0 <= slow <= 1.0
    ensures Ceil(distance * slow * frequency as real) <= frequency
  {
    UnitProduct(distance, slow);
    Scale(frequency as real, distance * slow, 1.0);
  }

  lemma UnitProduct(x: real, y: real)
    requires 0.0 <= x <= 1.0 && 0.0 <= y <= 1.0
    ensures x * y <= 1.0
  {
    Scale(y, x, 1.0);
    AtMost(x * y, y, 1.0);
  }

  lemma AtMost(x: real, y: real, z: real)
    requires x <= y <= z
    ensures x <= z
  {
  }

  /** After a gap longer than the stale window a reset state and a remembering one give the same
      output exactly when the crouch command did not change over the gap, and are then related. */
  lemma GapStep(ease: real -> real, s: TransitionState, p: Call, c: Call, frequency: int)
    requires frequency > 0 && Easing(ease) && Kept(ease, s, p, frequency)
    requires c.network == p.network && SameGeneration(s, c) && c.now - p.now > StaleTicks(frequency)
    ensures var r := RequestOf(c, frequency);
            var a, b := BlendStep(ease, ResetState(r), c, frequency), BlendStep(ease, Touched(s, r), c, frequency);
            && (a.lastOutput == b.lastOutput <==> Desired(c.control) == Desired(p.control))
            && (Desired(c.control) == Desired(p.control) ==> Related(a, b, frequency))
  {
    var r := RequestOf(c, frequency);
    var t, tick := Touched(s, r), Tick(c.now, c.moving);
    FreshIsKept(ease, c, frequency);
    BlendingReads(ease, s, t, frequency);
    StaleIsOver(ease, s, p, c.now, frequency);
    TickDeadline(ease, t, tick, frequency);
    TickKeeps(ease, t, tick, frequency);
    var here := TickStep(ease, t, tick, frequency);
    StartKeeps(here, here.lastOutput, Desired(c.control), c.now, frequency);
    GapFades(c.now - s.lastMoveCounter, frequency);
    hide TickStep, Start, Blending, Seconds;
  }

  lemma GapFades(ticks: int, frequency: int)
    requires frequency > 0
    ensures ticks > 2 * frequency ==> Seconds(ticks, frequency) >= 2.0 * MOVE_RECENT_SECONDS
  {
    if ticks > 2 * frequency {
      SecondsAdd(2 * frequency, ticks - 2 * frequency, frequency);
      assert Seconds(2 * frequency, frequency) == 2.0;
    }
  }

  // ---------- Whole runs ----------

  /** The hook's world beside the reference, and each network's latest call that reached either. */
  datatype History = History(world: World, table: Table, last: map<Pointer, Call>)

  /** One call.  The reference is shown only the calls that the hook could find a state for. */
  function Next(ease: real -> real, h: History, c: Call, frequency: int): History
    requires frequency > 0 && |h.world.hints| > 0
  {
    var (world, outcome) := HookStep(ease, h.world, c, frequency);
    if outcome.Stock? then h.(world := world)
    else History(world, h.table[c.network := Continue(ease, h.table, c, frequency)], h.last[c.network := c])
  }

  /** The crouch command changed over a gap longer than the stale window. */
  predicate Flips(last: map<Pointer, Call>, c: Call, frequency: int)
    requires frequency > 0
  {
    && c.network in last
    && last[c.network].generation == c.generation && last[c.network].controlGeneration == c.controlGeneration
    && c.now - last[c.network].now > StaleTicks(frequency)
    && Desired(c.control) != Desired(last[c.network].control)
  }

  /** What ties the two tables together after every call up to `now`. */
  ghost predicate Simulated(ease: real -> real, h: History, now: int, frequency: int)
    requires frequency > 0
  {
    && Unique(h.world.states)
    && |h.world.hints| > 0
    && h.table.Keys == h.last.Keys && 0 !in h.table
    && (forall n :: n in h.table ==>
          Kept(ease, h.table[n], h.last[n], frequency) && h.last[n].network == n && h.last[n].now <= now)
    && (forall i :: 0 <= i < |h.world.states| && h.world.states[i].network != 0 ==>
          && h.world.states[i].network in h.table
          && Related(h.world.states[i], h.table[h.world.states[i].network], frequency))
    && (forall n :: n in h.table && !Holds(h.world.states, n) ==> now - h.last[n].now > StaleTicks(frequency))
  }

  /** A call that finds a state gets the reference's output exactly when it does not flip. */
  lemma SlotStep(ease: real -> real, h: History, now: int, c: Call, frequency: int)
    requires frequency > 0 && Easing(ease) && Simulated(ease, h, now, frequency)
    requires now <= c.now
    requires var states := h.world.states;
             Acquire(states, 0, |states|, RequestOf(c, frequency)).slot.Slot?
    ensures var a := Acquire(h.world.states, 0, |h.world.states|, RequestOf(c, frequency));
            var s := BlendStep(ease, a.states[a.slot.index], c, frequency);
            var e := Continue(ease, h.table, c, frequency);
            && s.network == c.network
            && Kept(ease, e, c, frequency)
            && (s.lastOutput == e.lastOutput <==> !Flips(h.last, c, frequency))
            && (!Flips(h.last, c, frequency) ==> Related(s, e, frequency))
  {
    var states, n, r := h.world.states, c.network, RequestOf(c, frequency);
    var a := Acquire(states, 0, |states|, r);
    var i := a.slot.index;
    AcquiredState(states, r);
    StepIdentity(ease, a.states[i], c, frequency);
    FreshIsKept(ease, c, frequency);
    if n in h.table && SameGeneration(h.table[n], c) {
      var t, p := h.table[n], h.last[n];
      ContinuedIsKept(ease, t, p, c, frequency);
      if c.now - p.now > StaleTicks(frequency) {
        StaleIsOver(ease, t, p, c.now, frequency);
        assert a.states[i] == ResetState(r);
        GapStep(ease, t, p, c, frequency);
      } else {
        assert Holds(states, n);
        assert Related(states[i], t, frequency);
        assert a.states[i] == Touched(states[i], r);
        RelatedStep(ease, states[i], t, c, frequency);
      }
    } else {
      assert a.states[i] == ResetState(r);
    }
    hide BlendStep;
  }

  lemma StepIdentity(ease: real -> real, s: TransitionState, c: Call, frequency: int)
    requires frequency > 0
    ensures var r := BlendStep(ease, s, c, frequency);
            r.network == s.network && r.lastCallSequence == s.lastCallSequence
  {
    hide Travel, MoveWeight;
  }

  /** The hook answers exactly as the reference would. */
  ghost predicate Agrees(ease: real -> real, h: History, c: Call, frequency: int)
    requires frequency > 0 && |h.world.hints| > 0
  {
    var outcome := HookStep(ease, h.world, c, frequency).1;
    outcome.Weight? ==> outcome.output == Continue(ease, h.table, c, frequency).lastOutput
  }

  /** The hook found a state, and the command flipped over a long gap. */
  ghost predicate AcceptedFlip(ease: real -> real, h: History, c: Call, frequency: int)
    requires frequency > 0 && |h.world.hints| > 0
  {
    HookStep(ease, h.world, c, frequency).1.Weight? && Flips(h.last, c, frequency)
  }

  /** One call of a simulated run: it agrees exactly when it does not flip, and then the
      simulation goes on. */
  lemma NextSimulates(ease: real -> real, h: History, now: int, c: Call, frequency: int)
    requires frequency > 0 && Easing(ease) && Simulated(ease, h, now, frequency)
    requires now <= c.now
    ensures Agrees(ease, h, c, frequency) <==> !AcceptedFlip(ease, h, c, frequency)
    ensures !AcceptedFlip(ease, h, c, frequency) ==>
              Simulated(ease, Next(ease, h, c, frequency), c.now, frequency)
  {
    var states, r := h.world.states, RequestOf(c, frequency);
    HintRefinesScan(states, h.world.hints, r);
    AcquireFrame(states, r);
    AcquireKeepsUnique(states, r);
    var a := Acquire(states, 0, |states|, r);
    if a.slot.Slot? {
      SlotStep(ease, h, now, c, frequency);
      if !Flips(h.last, c, frequency) {
        SlotUpdate(ease, h, now, c, frequency, a,
                   BlendStep(ease, a.states[a.slot.index], c, frequency), Continue(ease, h.table, c, frequency));
      }
    } else {
      RefusedKeeps(ease, h, now, c.now, UpdatedHints(states, h.world.hints, r), frequency);
    }
    hide Acquire, BlendStep, Continue, Kept, Related, Simulated, UpdatedHints, Flips;
  }

  lemma RefusedKeeps(ease: real -> real, h: History, now: int, later: int, hints: seq<nat>, frequency: int)
    requires frequency > 0 && Simulated(ease, h, now, frequency)
    requires now <= later && |hints| > 0
    ensures Simulated(ease, h.(world := World(h.world.states, hints)), later, frequency)
  {
    hide Kept, Related;
  }

  /** Storing the acquired slot keeps the two tables together; a network that lost its slot
      was not seen within the stale window. */
  lemma SlotUpdate(ease: real -> real, h: History, now: int, c: Call, frequency: int, a: Acquired,
                   s: TransitionState, e: TransitionState)
    requires frequency > 0 && Simulated(ease, h, now, frequency)
    requires now <= c.now
    requires a == Acquire(h.world.states, 0, |h.world.states|, RequestOf(c, frequency)) && a.slot.Slot?
    requires s.network == c.network
    requires Kept(ease, e, c, frequency) && Related(s, e, frequency)
    ensures var i := a.slot.index;
            && i < |a.states|
            && forall hints: seq<nat> :: |hints| > 0 ==>
                 Simulated(ease, History(World(a.states[i := s], hints), h.table[c.network := e],
                                         h.last[c.network := c]), c.now, frequency)
  {
    var states, r := h.world.states, RequestOf(c, frequency);
    var i := a.slot.index;
    AcquireFrame(states, r);
    AcquireKeepsUnique(states, r);
    var after := a.states[i := s];
    var table, last := h.table[c.network := e], h.last[c.network := c];
    assert after == states[i := s];
    assert after[i] == s;
    UniqueAfter(a.states, i, s);
    forall n | n in table && !Holds(after, n)
      ensures c.now - last[n].now > StaleTicks(frequency)
    {
      LostSlot(states, i, s, n);
      if Holds(states, n) {
        SeenLast(ease, h, now, i, frequency);
      }
    }
    forall k | 0 <= k < |after| && after[k].network != 0
      ensures after[k].network in table
      ensures Related(after[k], table[after[k].network], frequency)
    {
      if k != i {
        assert after[k] == states[k] && a.states[i].network == c.network;
        assert after[k].network != c.network;
      }
    }
    hide Acquire, Kept, Related;
  }

  /** A slot remembers when its network was last accepted. */
  lemma SeenLast(ease: real -> real, h: History, now: int, i: nat, frequency: int)
    requires frequency > 0 && Simulated(ease, h, now, frequency)
    requires i < |h.world.states| && h.world.states[i].network != 0
    ensures var n := h.world.states[i].network;
            n in h.last && h.world.states[i].lastSeenCounter == h.last[n].now
  {
    var n := h.world.states[i].network;
    assert Kept(ease, h.table[n], h.last[n], frequency);
    hide Blending, MoveRelated, SameInputs;
  }

  lemma UniqueAfter(s: seq<TransitionState>, i: nat, t: TransitionState)
    requires Unique(s) && i < |s| && t.network == s[i].network
    ensures Unique(s[i := t])
  {
  }

  lemma LostSlot(s: seq<TransitionState>, i: nat, t: TransitionState, n: Pointer)
    requires i < |s| && !Holds(s[i := t], n)
    ensures t.network != n
    ensures Holds(s, n) ==> s[i].network == n
  {
    assert s[i := t][i].network != n;
    if Holds(s, n) {
      var k :| 0 <= k < |s| && s[k].network == n;
      assert s[i := t][k].network != n;
    }
  }

  /** The hook and the reference after the first `k` calls of a run, from an empty table. */
  function Run(ease: real -> real, capacity: nat, hints: seq<nat>, calls: seq<Call>, k: nat,
               frequency: int): (h: History)
    requires frequency > 0 && |hints| > 0 && k <= |calls|
    ensures |h.world.hints| == |hints|
  {
    if k == 0 then History(World(seq(capacity, _ => ZeroState()), hints), map[], map[])
    else Next(ease, Run(ease, capacity, hints, calls, k - 1, frequency), calls[k - 1], frequency)
  }

  /** The counter read under the lock never goes down. The calls may come in any order. */
  ghost predicate WellTimed(calls: seq<Call>) {
    forall j, k :: 0 <= j < k < |calls| ==> calls[j].now <= calls[k].now
  }

  ghost predicate AgreesAt(ease: real -> real, capacity: nat, hints: seq<nat>, calls: seq<Call>, k: nat, frequency: int)
    requires frequency > 0 && |hints| > 0 && k < |calls|
  {
    Agrees(ease, Run(ease, capacity, hints, calls, k, frequency), calls[k], frequency)
  }

  ghost predicate FlipsAt(ease: real -> real, capacity: nat, hints: seq<nat>, calls: seq<Call>, k: nat, frequency: int)
    requires frequency > 0 && |hints| > 0 && k < |calls|
  {
    AcceptedFlip(ease, Run(ease, capacity, hints, calls, k, frequency), calls[k], frequency)
  }

  /** The counter and the sequence of the call before the `k`-th. */
  function NowBefore(calls: seq<Call>, k: nat): int
    requires k <= |calls|
  {
    if k > 0 then calls[k - 1].now else if calls != [] then calls[0].now else 0
  }

  /** A run simulates until its first flip. */
  lemma {:induction false} RunSimulates(ease: real -> real, capacity: nat, hints: seq<nat>, calls: seq<Call>,
                                        k: nat, frequency: int)
    requires frequency > 0 && Easing(ease) && |hints| > 0 && WellTimed(calls) && k <= |calls|
    requires forall j :: 0 <= j < k ==> !FlipsAt(ease, capacity, hints, calls, j, frequency)
    ensures Simulated(ease, Run(ease, capacity, hints, calls, k, frequency),
                      NowBefore(calls, k), frequency)
  {
    hide Agrees, AcceptedFlip, Next, Simulated, HookStep;
    if k == 0 {
      EmptySimulates(ease, capacity, hints, calls, NowBefore(calls, 0), frequency);
    } else {
      RunSimulates(ease, capacity, hints, calls, k - 1, frequency);
      assert !FlipsAt(ease, capacity, hints, calls, k - 1, frequency);
      NextSimulates(ease, Run(ease, capacity, hints, calls, k - 1, frequency),
                    NowBefore(calls, k - 1), calls[k - 1], frequency);
    }
  }

  lemma EmptySimulates(ease: real -> real, capacity: nat, hints: seq<nat>, calls: seq<Call>, now: int, frequency: int)
    requires frequency > 0 && |hints| > 0
    ensures Simulated(ease, Run(ease, capacity, hints, calls, 0, frequency), now, frequency)
  {
    hide Kept, Related;
  }

  lemma AgreesUnlessFlips(ease: real -> real, capacity: nat, hints: seq<nat>, calls: seq<Call>, k: nat, frequency: int)
    requires frequency > 0 && Easing(ease) && |hints| > 0 && WellTimed(calls) && k < |calls|
    requires forall j :: 0 <= j < k ==> !FlipsAt(ease, capacity, hints, calls, j, frequency)
    ensures AgreesAt(ease, capacity, hints, calls, k, frequency) <==>
            !FlipsAt(ease, capacity, hints, calls, k, frequency)
  {
    RunSimulates(ease, capacity, hints, calls, k, frequency);
    hide Agrees, AcceptedFlip, Next, Simulated, Run;
    NextSimulates(ease, Run(ease, capacity, hints, calls, k, frequency),
                  NowBefore(calls, k), calls[k], frequency);
  }

  /** On every run, whatever is evicted or reset in between, each output of the bounded table is
      the one of the table that never forgets, if and only if no call that found a state flipped
      its crouch command over a gap longer than the stale window. */
  lemma ForgettingIsInvisible(ease: real -> real, capacity: nat, hints: seq<nat>, calls: seq<Call>, frequency: int)
    requires frequency > 0 && Easing(ease) && |hints| > 0 && WellTimed(calls)
    ensures (forall k :: 0 <= k < |calls| ==> AgreesAt(ease, capacity, hints, calls, k, frequency)) <==>
            (forall k :: 0 <= k < |calls| ==> !FlipsAt(ease, capacity, hints, calls, k, frequency))
  {
    hide AgreesAt, FlipsAt;
    if forall k :: 0 <= k < |calls| ==> AgreesAt(ease, capacity, hints, calls, k, frequency) {
      AgreeingNeverFlips(ease, capacity, hints, calls, |calls|, frequency);
    }
    if forall k :: 0 <= k < |calls| ==> !FlipsAt(ease, capacity, hints, calls, k, frequency) {
      forall k | 0 <= k < |calls| ensures AgreesAt(ease, capacity, hints, calls, k, frequency) {
        AgreesUnlessFlips(ease, capacity, hints, calls, k, frequency);
      }
    }
  }

  lemma {:induction false} AgreeingNeverFlips(ease: real -> real, capacity: nat, hints: seq<nat>, calls: seq<Call>,
                                              k: nat, frequency: int)
    requires frequency > 0 && Easing(ease) && |hints| > 0 && WellTimed(calls) && k <= |calls|
    requires forall j :: 0 <= j < |calls| ==> AgreesAt(ease, capacity, hints, calls, j, frequency)
    ensures forall j :: 0 <= j < k ==> !FlipsAt(ease, capacity, hints, calls, j, frequency)
  {
    hide AgreesAt, FlipsAt;
    if k > 0 {
      AgreeingNeverFlips(ease, capacity, hints, calls, k - 1, frequency);
      AgreesUnlessFlips(ease, capacity, hints, calls, k - 1, frequency);
    }
  }

  // ---------- When the table is large enough ----------

  predicate Identified(c: Call) {
    c.network != 0 && c.generation != 0 && c.controlGeneration != 0 && c.sequence > 0
  }

  /** Every call has an identity, and lock order is sequence order. */
  ghost predicate InSequence(calls: seq<Call>) {
    && (forall k :: 0 <= k < |calls| ==> Identified(calls[k]))
    && (forall j, k :: 0 <= j < k < |calls| ==> calls[j].sequence < calls[k].sequence)
  }

  function SequenceBefore(calls: seq<Call>, k: nat): int
    requires k <= |calls|
  {
    if k > 0 then calls[k - 1].sequence else 0
  }

  /** The networks that a run calls for. */
  ghost function Networks(calls: seq<Call>): set<Pointer> {
    set k | 0 <= k < |calls| :: calls[k].network
  }

  ghost predicate Bounded(states: seq<TransitionState>, networks: set<Pointer>, sequence: int) {
    && Unique(states)
    && forall i :: 0 <= i < |states| && states[i].network != 0 ==>
         states[i].network in networks && states[i].lastCallSequence <= sequence
  }

  lemma {:induction false} RunBounded(ease: real -> real, capacity: nat, hints: seq<nat>, calls: seq<Call>, k: nat,
                                      frequency: int)
    requires frequency > 0 && |hints| > 0 && InSequence(calls) && k <= |calls|
    ensures var states := Run(ease, capacity, hints, calls, k, frequency).world.states;
            |states| == capacity && Bounded(states, Networks(calls), SequenceBefore(calls, k))
  {
    hide Bounded, Next, HookStep;
    if k == 0 {
      EmptyBounded(capacity, Networks(calls));
    } else {
      RunBounded(ease, capacity, hints, calls, k - 1, frequency);
      assert calls[k - 1].network in Networks(calls);
      NextBounded(ease, Run(ease, capacity, hints, calls, k - 1, frequency), calls[k - 1], Networks(calls),
                  SequenceBefore(calls, k - 1), frequency);
    }
  }

  lemma EmptyBounded(capacity: nat, networks: set<Pointer>)
    ensures Bounded(seq(capacity, _ => ZeroState()), networks, 0)
  {
  }

  lemma NextBounded(ease: real -> real, h: History, c: Call, networks: set<Pointer>, sequence: int, frequency: int)
    requires frequency > 0 && |h.world.hints| > 0 && Bounded(h.world.states, networks, sequence)
    requires c.network in networks && sequence < c.sequence
    ensures var states := Next(ease, h, c, frequency).world.states;
            |states| == |h.world.states| && Bounded(states, networks, c.sequence)
  {
    var states, r := h.world.states, RequestOf(c, frequency);
    HintRefinesScan(states, h.world.hints, r);
    AcquireFrame(states, r);
    AcquireKeepsUnique(states, r);
    var a := Acquire(states, 0, |states|, r);
    hide BlendStep, Continue, Acquire, AcquireHint, UpdatedHints, IsStale, IsActive;
    if a.slot.Slot? {
      var i := a.slot.index;
      StepIdentity(ease, a.states[i], c, frequency);
      UniqueAfter(a.states, i, BlendStep(ease, a.states[i], c, frequency));
    }
  }

  /** A run over no more networks than slots never falls back to the stock blend. */
  lemma EnoughSlotsNeverStock(ease: real -> real, capacity: nat, hints: seq<nat>, calls: seq<Call>, k: nat,
                              frequency: int)
    requires frequency > 0 && |hints| > 0 && InSequence(calls) && k < |calls|
    requires |Networks(calls)| <= capacity
    ensures HookStep(ease, Run(ease, capacity, hints, calls, k, frequency).world, calls[k], frequency).1.Weight?
  {
    var h := Run(ease, capacity, hints, calls, k, frequency);
    RunBounded(ease, capacity, hints, calls, k, frequency);
    HintRefinesScan(h.world.states, h.world.hints, RequestOf(calls[k], frequency));
    assert SequenceBefore(calls, k) < calls[k].sequence;
    hide Run, BlendStep, Acquire, AcquireHint;
    EnoughSlots(h.world.states, Networks(calls), RequestOf(calls[k], frequency));
    AcquireFrame(h.world.states, RequestOf(calls[k], frequency));
  }

  // ---------- The hook against a reference of its own ----------

  /** The hook alone, after the first `k` calls of a run. */
  function HookRun(ease: real -> real, capacity: nat, hints: seq<nat>, calls: seq<Call>, k: nat,
                   frequency: int): (w: World)
    requires frequency > 0 && |hints| > 0 && k <= |calls|
    ensures |w.hints| == |hints|
  {
    if k == 0 then World(seq(capacity, _ => ZeroState()), hints)
    else HookStep(ease, HookRun(ease, capacity, hints, calls, k - 1, frequency), calls[k - 1], frequency).0
  }

  /** The unbounded table after the first `k` calls, none of which it refuses. */
  function Forever(ease: real -> real, calls: seq<Call>, k: nat, frequency: int): Table
    requires frequency > 0 && k <= |calls|
  {
    if k == 0 then map[]
    else
      var table, c := Forever(ease, calls, k - 1, frequency), calls[k - 1];
      table[c.network := Continue(ease, table, c, frequency)]
  }

  /** The hook answers the `k`-th call as the unbounded table does. */
  ghost predicate AnswersAlike(ease: real -> real, capacity: nat, hints: seq<nat>, calls: seq<Call>, k: nat,
                               frequency: int)
    requires frequency > 0 && |hints| > 0 && k < |calls|
  {
    HookStep(ease, HookRun(ease, capacity, hints, calls, k, frequency), calls[k], frequency).1 ==
    Weight(Continue(ease, Forever(ease, calls, k, frequency), calls[k], frequency).lastOutput)
  }

  /** Two successive calls of one network and generation, more than the stale window apart, with
      different commands. */
  ghost predicate FlipsUnseen(calls: seq<Call>, j: nat, k: nat, frequency: int)
    requires frequency > 0
  {
    && j < k < |calls| && calls[j].network == calls[k].network
    && (forall i :: j < i < k ==> calls[i].network != calls[k].network)
    && calls[j].generation == calls[k].generation && calls[j].controlGeneration == calls[k].controlGeneration
    && calls[k].now - calls[j].now > StaleTicks(frequency)
    && Desired(calls[j].control) != Desired(calls[k].control)
  }

  /** Each network's last of the first `k` calls. */
  function LastCalls(calls: seq<Call>, k: nat): map<Pointer, Call>
    requires k <= |calls|
  {
    if k == 0 then map[] else LastCalls(calls, k - 1)[calls[k - 1].network := calls[k - 1]]
  }

  /** The hook answers the `k`-th call with a weight: it does not fall back to the stock blend. */
  predicate Answered(ease: real -> real, capacity: nat, hints: seq<nat>, calls: seq<Call>, k: nat, frequency: int)
    requires frequency > 0 && |hints| > 0 && k < |calls|
  {
    HookStep(ease, HookRun(ease, capacity, hints, calls, k, frequency), calls[k], frequency).1.Weight?
  }

  ghost predicate AllAnswered(ease: real -> real, capacity: nat, hints: seq<nat>, calls: seq<Call>, frequency: int)
    requires frequency > 0 && |hints| > 0
  {
    forall k :: 0 <= k < |calls| ==> Answered(ease, capacity, hints, calls, k, frequency)
  }

  /** While every call is answered the run beside the reference is the two machines side by side. */
  lemma {:induction false} SideBySide(ease: real -> real, capacity: nat, hints: seq<nat>, calls: seq<Call>, k: nat,
                                      frequency: int)
    requires frequency > 0 && |hints| > 0 && k <= |calls| && AllAnswered(ease, capacity, hints, calls, frequency)
    ensures Run(ease, capacity, hints, calls, k, frequency) ==
            History(HookRun(ease, capacity, hints, calls, k, frequency), Forever(ease, calls, k, frequency),
                    LastCalls(calls, k))
  {
    hide HookStep, Continue;
    if k > 0 {
      SideBySide(ease, capacity, hints, calls, k - 1, frequency);
      assert Answered(ease, capacity, hints, calls, k - 1, frequency);
    }
  }

  /** The hook takes its steps whatever the reference does. */
  lemma {:induction false} RunIsHook(ease: real -> real, capacity: nat, hints: seq<nat>, calls: seq<Call>, k: nat,
                                     frequency: int)
    requires frequency > 0 && |hints| > 0 && k <= |calls|
    ensures Run(ease, capacity, hints, calls, k, frequency).world ==
            HookRun(ease, capacity, hints, calls, k, frequency)
  {
    hide HookStep, Continue;
    if k > 0 {
      RunIsHook(ease, capacity, hints, calls, k - 1, frequency);
    }
  }

  /** With enough slots and calls in sequence every call is answered. */
  lemma EnoughSlotsAnswerAll(ease: real -> real, capacity: nat, hints: seq<nat>, calls: seq<Call>, frequency: int)
    requires frequency > 0 && |hints| > 0 && InSequence(calls) && |Networks(calls)| <= capacity
    ensures AllAnswered(ease, capacity, hints, calls, frequency)
  {
    hide HookStep, InSequence, Networks, Run, HookRun;
    forall k: nat | k < |calls| ensures Answered(ease, capacity, hints, calls, k, frequency) {
      EnoughSlotsNeverStock(ease, capacity, hints, calls, k, frequency);
      RunIsHook(ease, capacity, hints, calls, k, frequency);
    }
  }

  /** The last call of a network among the first `k`, found from the calls. */
  lemma {:induction false} LastCallIs(calls: seq<Call>, k: nat, n: Pointer) returns (j: nat)
    requires k <= |calls| && n in LastCalls(calls, k)
    ensures j < k && calls[j].network == n && LastCalls(calls, k)[n] == calls[j]
    ensures forall i :: j < i < k ==> calls[i].network != n
  {
    if calls[k - 1].network == n {
      j := k - 1;
    } else {
      j := LastCallIs(calls, k - 1, n);
    }
  }

  lemma {:induction false} LastCallsHas(calls: seq<Call>, j: nat, k: nat)
    requires j < k <= |calls| && forall i :: j < i < k ==> calls[i].network != calls[j].network
    ensures calls[j].network in LastCalls(calls, k) && LastCalls(calls, k)[calls[j].network] == calls[j]
  {
    if j < k - 1 {
      LastCallsHas(calls, j, k - 1);
    }
  }

  lemma FlipsByCalls(calls: seq<Call>, k: nat, frequency: int)
    requires frequency > 0 && k < |calls|
    ensures Flips(LastCalls(calls, k), calls[k], frequency) <==> exists j: nat :: FlipsUnseen(calls, j, k, frequency)
  {
    hide LastCalls, Desired;
    if Flips(LastCalls(calls, k), calls[k], frequency) {
      var j := LastCallIs(calls, k, calls[k].network);
      assert FlipsUnseen(calls, j, k, frequency);
    }
    if j: nat :| FlipsUnseen(calls, j, k, frequency) {
      LastCallsHas(calls, j, k);
    }
  }

  lemma AlikeUnlessFlips(ease: real -> real, capacity: nat, hints: seq<nat>, calls: seq<Call>, k: nat, frequency: int)
    requires frequency > 0 && |hints| > 0 && k < |calls| && AllAnswered(ease, capacity, hints, calls, frequency)
    ensures AnswersAlike(ease, capacity, hints, calls, k, frequency) <==>
            AgreesAt(ease, capacity, hints, calls, k, frequency)
    ensures FlipsAt(ease, capacity, hints, calls, k, frequency) <==>
            exists j: nat :: FlipsUnseen(calls, j, k, frequency)
  {
    SideBySide(ease, capacity, hints, calls, k, frequency);
    assert Answered(ease, capacity, hints, calls, k, frequency);
    FlipsByCalls(calls, k, frequency);
    hide HookStep, Continue, Flips, FlipsUnseen, HookRun, Forever, Run, LastCalls, AllAnswered;
  }

  /** On every run whose calls are all answered, whatever is evicted in between, each answer is the one of
      a table that keeps every blend and refuses no call, if and only if no two successive calls of one
      network and generation, more than the stale window apart, ask for different poses. */
  lemma AnsweringForgetsNothing(ease: real -> real, capacity: nat, hints: seq<nat>, calls: seq<Call>, frequency: int)
    requires frequency > 0 && Easing(ease) && |hints| > 0 && WellTimed(calls)
    requires AllAnswered(ease, capacity, hints, calls, frequency)
    ensures (forall k :: 0 <= k < |calls| ==> AnswersAlike(ease, capacity, hints, calls, k, frequency)) <==>
            (forall j: nat, k: nat :: !FlipsUnseen(calls, j, k, frequency))
  {
    hide AnswersAlike, AgreesAt, FlipsAt, AllAnswered, WellTimed, FlipsUnseen;
    forall k: nat | k < |calls|
      ensures AnswersAlike(ease, capacity, hints, calls, k, frequency) <==>
              AgreesAt(ease, capacity, hints, calls, k, frequency)
    {
      AlikeUnlessFlips(ease, capacity, hints, calls, k, frequency);
    }
    ForgettingIsInvisible(ease, capacity, hints, calls, frequency);
    NoneFlips(ease, capacity, hints, calls, frequency);
  }

  /** With no more networks than slots and calls in sequence that is a condition on the calls alone. */
  lemma EnoughSlotsForgetNothing(ease: real -> real, capacity: nat, hints: seq<nat>, calls: seq<Call>, frequency: int)
    requires frequency > 0 && Easing(ease) && |hints| > 0 && WellTimed(calls) && InSequence(calls)
    requires |Networks(calls)| <= capacity
    ensures (forall k :: 0 <= k < |calls| ==> AnswersAlike(ease, capacity, hints, calls, k, frequency)) <==>
            (forall j: nat, k: nat :: !FlipsUnseen(calls, j, k, frequency))
  {
    hide AnswersAlike, AllAnswered, Networks, InSequence, WellTimed, FlipsUnseen;
    EnoughSlotsAnswerAll(ease, capacity, hints, calls, frequency);
    AnsweringForgetsNothing(ease, capacity, hints, calls, frequency);
  }

  lemma NoneFlips(ease: real -> real, capacity: nat, hints: seq<nat>, calls: seq<Call>, frequency: int)
    requires frequency > 0 && |hints| > 0 && AllAnswered(ease, capacity, hints, calls, frequency)
    ensures (forall k :: 0 <= k < |calls| ==> !FlipsAt(ease, capacity, hints, calls, k, frequency)) <==>
            (forall j: nat, k: nat :: !FlipsUnseen(calls, j, k, frequency))
  {
    hide FlipsAt, AllAnswered, FlipsUnseen, AgreesAt, AnswersAlike;
    forall j: nat, k: nat
      ensures FlipsUnseen(calls, j, k, frequency) ==>
                k < |calls| && FlipsAt(ease, capacity, hints, calls, k, frequency)
    {
      UnseenIsACall(calls, j, k, frequency);
      if k < |calls| {
        AlikeUnlessFlips(ease, capacity, hints, calls, k, frequency);
      }
    }
    forall k | 0 <= k < |calls|
      ensures FlipsAt(ease, capacity, hints, calls, k, frequency) ==>
                exists j: nat :: FlipsUnseen(calls, j, k, frequency)
    {
      AlikeUnlessFlips(ease, capacity, hints, calls, k, frequency);
    }
  }

  lemma UnseenIsACall(calls: seq<Call>, j: nat, k: nat, frequency: int)
    requires frequency > 0
    ensures FlipsUnseen(calls, j, k, frequency) ==> k < |calls|
  {
  }

  /** A player who crouches, is not evaluated for three seconds, and is then seen standing. */
  function StoodUpUnseen(frequency: int): seq<Call> {
    [Call(1, 1, 1, 0.0, 1.0, false, 0, 1), Call(1, 1, 1, 0.0, 0.0, false, 3 * frequency, 2)]
  }

  lemma OneNetwork(frequency: int)
    ensures Networks(StoodUpUnseen(frequency)) == {1}
  {
    var calls := StoodUpUnseen(frequency);
    assert calls[0].network in Networks(calls);
    forall k | 0 <= k < |calls| ensures calls[k].network == 1 {
    }
  }

  /** Without the condition on flips the bounded table is not invisible: the forgetful hook jumps
      to the new pose where the reference would start a blend from the old one. */
  lemma FlipIsVisible(ease: real -> real, capacity: nat, hints: seq<nat>, frequency: int)
    requires frequency > 0 && Easing(ease) && |hints| > 0 && capacity > 0
    ensures WellTimed(StoodUpUnseen(frequency)) && InSequence(StoodUpUnseen(frequency))
    ensures !AgreesAt(ease, capacity, hints, StoodUpUnseen(frequency), 1, frequency)
  {
    var calls := StoodUpUnseen(frequency);
    OneNetwork(frequency);
    EnoughSlotsNeverStock(ease, capacity, hints, calls, 0, frequency);
    EnoughSlotsNeverStock(ease, capacity, hints, calls, 1, frequency);
    hide HookStep, Continue, Agrees, Networks;
    assert !FlipsAt(ease, capacity, hints, calls, 0, frequency);
    assert Run(ease, capacity, hints, calls, 1, frequency).last == map[1 := calls[0]];
    assert FlipsAt(ease, capacity, hints, calls, 1, frequency);
    AgreesUnlessFlips(ease, capacity, hints, calls, 1, frequency);
  }
}
