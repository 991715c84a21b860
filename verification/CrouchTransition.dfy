/**
 The blend integrator (native/vivoxproxy/crouch_transition.h).

 Counters are integers, durations and phases are reals.  The cosine is any `ease`
 that rises from 0 to 1 on the unit interval; see `Easing`.
 */
module CrouchTransition {
  import opened Basics
  import opened CrouchStateCache

  const IDLE_ENTER_SECONDS := 0.4000000059604645
  const IDLE_EXIT_SECONDS := 0.20000000298023224
  const MOVE_SECONDS := 0.25
  const MOVE_RECENT_SECONDS := 0.10000000149011612

  ghost predicate Easing(ease: real -> real) {
    && ease(0.0) == 0.0
    && ease(1.0) == 1.0
    && forall x, y :: 0.0 <= x <= y <= 1.0 ==> ease(x) <= ease(y)
  }

  function Abs(x: real): real { if x < 0.0 then -x else x }

  /** A counter difference in seconds. */
  function Seconds(ticks: int, frequency: int): real
    requires frequency > 0
  {
    ticks as real * (1.0 / frequency as real)
  }

  // ---------- The influence of a moving node ----------

  /** The integral of `MoveWeight` from 0 to `age`, in closed form. */
  function MoveArea(age: real): real {
    var grace := MOVE_RECENT_SECONDS;
    if age <= 0.0 then 0.0
    else if age <= grace then age
    else if age >= 2.0 * grace then 1.5 * grace
    else
      var a := age - grace;
      grace + a - a * a / (2.0 * grace)
  }

  /** How much a moving node observed `age` seconds ago still counts. */
  function MoveWeight(age: real): real {
    var moving := 2.0 - age / MOVE_RECENT_SECONDS;
    if moving < 0.0 then 0.0 else if moving > 1.0 then 1.0 else moving
  }

  /** The increment of `MoveArea` lies between the smallest and the largest weight times the length. */
  ghost predicate Sandwiched(a: real, b: real) {
    Between(MoveWeight(b), MoveArea(b) - MoveArea(a), MoveWeight(a), b - a)
  }

  ghost predicate Between(low: real, total: real, high: real, length: real) {
    low * length <= total <= high * length
  }

  /** `MoveArea` is the integral of `MoveWeight` over every interval of nonnegative ages. */
  lemma AreaIntegratesWeight(a: real, b: real)
    requires 0.0 <= a <= b
    ensures Sandwiched(a, b)
  {
    var grace, gone := MOVE_RECENT_SECONDS, 2.0 * MOVE_RECENT_SECONDS;
    if b <= grace {
      AreaConstant(a, b);
    } else if a < grace {
      AreaConstant(a, grace);
      if b <= gone {
        AreaFading(grace, b);
      } else {
        AreaFading(grace, gone);
        AreaConstant(gone, b);
        JoinSandwiches(grace, gone, b);
      }
      JoinSandwiches(a, grace, b);
    } else if b <= gone {
      AreaFading(a, b);
    } else if a < gone {
      AreaFading(a, gone);
      AreaConstant(gone, b);
      JoinSandwiches(a, gone, b);
    } else {
      AreaConstant(a, b);
    }
  }

  lemma AreaConstant(a: real, b: real)
    requires 0.0 <= a <= b <= MOVE_RECENT_SECONDS || 2.0 * MOVE_RECENT_SECONDS <= a <= b
    ensures Sandwiched(a, b)
  {
    assert MoveWeight(a) == MoveWeight(b) == if b <= MOVE_RECENT_SECONDS then 1.0 else 0.0;
  }

  /** While the influence fades the increment is the weight at the midpoint times the length. */
  lemma AreaFading(a: real, b: real)
    requires MOVE_RECENT_SECONDS <= a <= b <= 2.0 * MOVE_RECENT_SECONDS
    ensures Sandwiched(a, b)
  {
    FadingSlope(a - MOVE_RECENT_SECONDS, b - MOVE_RECENT_SECONDS);
    AreaWhileFading(a);
    AreaWhileFading(b);
    hide Between, MoveArea, Faded;
  }

  lemma AreaWhileFading(age: real)
    requires MOVE_RECENT_SECONDS <= age <= 2.0 * MOVE_RECENT_SECONDS
    ensures MoveArea(age) == MOVE_RECENT_SECONDS + Faded(age - MOVE_RECENT_SECONDS)
  {
  }

  /** The area under the fading half of the influence. */
  ghost function Faded(a: real): real { a - a * a / (2.0 * MOVE_RECENT_SECONDS) }

  lemma FadingSlope(x: real, y: real)
    requires x <= y
    ensures Between(1.0 - y / MOVE_RECENT_SECONDS, Faded(y) - Faded(x), 1.0 - x / MOVE_RECENT_SECONDS, y - x)
  {
    Scale(y - x, 0.0, y - x);
  }

  lemma JoinSandwiches(a: real, m: real, b: real)
    requires 0.0 <= a <= m <= b && Sandwiched(a, m) && Sandwiched(m, b)
    ensures Sandwiched(a, b)
  {
    WeightFalls(a, m);
    WeightFalls(m, b);
    JoinBounds(MoveWeight(a), MoveWeight(m), MoveWeight(b), MoveArea(a), MoveArea(m), MoveArea(b), a, m, b);
  }

  lemma WeightFalls(a: real, b: real)
    requires a <= b
    ensures 0.0 <= MoveWeight(b) <= MoveWeight(a) <= 1.0
  {
  }

  lemma JoinBounds(wa: real, wm: real, wb: real, s: real, t: real, u: real, a: real, m: real, b: real)
    requires wb <= wm <= wa && a <= m <= b
    requires Between(wm, t - s, wa, m - a) && Between(wb, u - t, wm, b - m)
    ensures Between(wb, u - s, wa, b - a)
  {
    Scale(m - a, wb, wm);
    Scale(b - m, wm, wa);
  }

  lemma Scale(w: real, x: real, y: real)
    requires w >= 0.0 && x <= y
    ensures x * w <= y * w
  {
  }

  /** A moving node contributes at most the elapsed time, and never less than nothing. */
  lemma AreaBounds(a: real, b: real)
    requires a <= b
    ensures 0.0 <= MoveArea(b) - MoveArea(a) <= b - a
  {
    if b >= 0.0 {
      var from := if a < 0.0 then 0.0 else a;
      AreaIntegratesWeight(from, b);
      WeightFalls(from, b);
      UnitBounds(MoveWeight(from), MoveWeight(b), MoveArea(b) - MoveArea(from), b - from);
    }
  }

  lemma UnitBounds(high: real, low: real, s: real, x: real)
    requires high <= 1.0 && low >= 0.0 && x >= 0.0
    requires Between(low, s, high, x)
    ensures 0.0 <= s <= x
  {
    Scale(x, 0.0, low);
    Scale(x, high, 1.0);
  }

  // ---------- One evaluation and one retarget ----------

  function IdleSeconds(target: real): real {
    if target > 0.5 then IDLE_ENTER_SECONDS else IDLE_EXIT_SECONDS
  }

  function Distance(s: TransitionState): real { Abs(s.target - s.startOutput) }

  /** The area under the moving influence since the last evaluation. */
  function MovingArea(s: TransitionState, now: int, frequency: int): real
    requires frequency > 0
  {
    if s.moveSeen then
      MoveArea(Seconds(now - s.lastMoveCounter, frequency)) -
      MoveArea(Seconds(s.evaluatedCounter - s.lastMoveCounter, frequency))
    else 0.0
  }

  /** The distance covered in `elapsed` seconds, of which `area` count as moving. */
  function Covered(target: real, elapsed: real, area: real): real {
    elapsed / IdleSeconds(target) + area * (1.0 / MOVE_SECONDS - 1.0 / IdleSeconds(target))
  }

  /** The distance covered since the last evaluation. */
  function Travel(s: TransitionState, now: int, frequency: int): real
    requires frequency > 0
  {
    Covered(s.target, Seconds(now - s.evaluatedCounter, frequency), MovingArea(s, now, frequency))
  }

  /** Where a blend stands at a phase. */
  function Pose(ease: real -> real, s: TransitionState): real {
    PoseAt(ease, s.startOutput, s.target, s.phase)
  }

  function PoseAt(ease: real -> real, start: real, target: real, phase: real): real {
    start + Share(ease(phase), target - start)
  }

  function Share(fraction: real, distance: real): real { fraction * distance }

  /** The blend after covering `travel` up to `now`.  A blend over no distance, which `Start`
      never leaves transitioning, has an infinite phase in floating point. */
  function Moved(s: TransitionState, now: int, travel: real): TransitionState {
    s.(phase := if Distance(s) > 0.0 then s.phase + travel / Distance(s) else 1.0, evaluatedCounter := now)
  }

  /** A blend that has moved either goes on or has reached its target. */
  function Settle(ease: real -> real, moved: TransitionState): Evaluation {
    if moved.phase >= 1.0 then
      Evaluation(moved.(phase := 1.0, transitioning := false, transitionEndCounter := 0), moved.target, true)
    else
      Evaluation(moved, Pose(ease, moved), false)
  }

  datatype Evaluation = Evaluation(state: TransitionState, output: real, completed: bool)

  function Evaluate(ease: real -> real, s: TransitionState, now: int, frequency: int): Evaluation
    requires frequency > 0
  {
    if !s.transitioning then Evaluation(s, s.target, false)
    else if now <= s.evaluatedCounter then Evaluation(s, s.lastOutput, false)
    else Settle(ease, Moved(s, now, Travel(s, now, frequency)))
  }

  /** The two extreme paces of a blend, in seconds per unit, and the distance covered at them. */
  function SlowSeconds(target: real): real {
    if IdleSeconds(target) > MOVE_SECONDS then IdleSeconds(target) else MOVE_SECONDS
  }

  function FastSeconds(target: real): real {
    if IdleSeconds(target) > MOVE_SECONDS then MOVE_SECONDS else IdleSeconds(target)
  }

  function AtSlowSpeed(target: real, seconds: real): (covered: real)
    ensures covered * SlowSeconds(target) == seconds
  {
    if target > 0.5 then seconds / IDLE_ENTER_SECONDS else seconds / MOVE_SECONDS
  }

  function AtFastSpeed(target: real, seconds: real): (covered: real)
    ensures covered * FastSeconds(target) == seconds
  {
    if target > 0.5 then seconds / MOVE_SECONDS else seconds / IDLE_EXIT_SECONDS
  }

  function Start(s: TransitionState, output: real, desired: real, now: int, frequency: int): TransitionState
    requires frequency > 0
  {
    var age := if s.moveSeen then Seconds(now - s.lastMoveCounter, frequency) else 2.0 * MOVE_RECENT_SECONDS;
    var distance := Abs(desired - output);
    RateIsPositive(desired, age);
    s.(startOutput := output,
       target := desired,
       durationSeconds := distance / Rate(desired, MoveWeight(age)),
       startCounter := now,
       evaluatedCounter := now,
       phase := 0.0,
       transitioning := distance > 0.0,
       transitionEndCounter :=
         if distance > 0.0 then now + Ceil(distance * SlowSeconds(desired) * frequency as real) else 0)
  }

  /** The pace under a moving influence, in units per second. */
  function Rate(target: real, weight: real): real {
    1.0 / IdleSeconds(target) + weight * (1.0 / MOVE_SECONDS - 1.0 / IdleSeconds(target))
  }

  lemma RateIsPositive(desired: real, age: real)
    ensures Rate(desired, MoveWeight(age)) > 0.0
  {
    WeightFalls(age, age);
  }

  method EvaluateInPlace(ease: real -> real, states: array<TransitionState>, i: nat, now: int, frequency: int)
    returns (output: real, completed: bool)
    requires frequency > 0 && i < states.Length
    modifies states
    ensures var e := Evaluate(ease, old(states[i]), now, frequency);
            states[..] == old(states[..])[i := e.state] && output == e.output && completed == e.completed
  {
    completed := false;
    var state := states[i];
    if !state.transitioning { return state.target, false; }
    if now <= state.evaluatedCounter { return state.lastOutput, false; }
    states[i] := states[i].(phase :=
      if Distance(state) > 0.0 then state.phase + Travel(state, now, frequency) / Distance(state) else 1.0);
    states[i] := states[i].(evaluatedCounter := now);
    if states[i].phase >= 1.0 {
      states[i] := states[i].(phase := 1.0);
      states[i] := states[i].(transitioning := false);
      states[i] := states[i].(transitionEndCounter := 0);
      return state.target, true;
    }
    output := Pose(ease, states[i]);
  }

  method StartInPlace(states: array<TransitionState>, i: nat, output: real, desired: real, now: int, frequency: int)
    requires frequency > 0 && i < states.Length
    modifies states
    ensures states[..] == old(states[..])[i := Start(old(states[i]), output, desired, now, frequency)]
  {
    hide Start;
    ghost var before, after := states[..], Start(states[i], output, desired, now, frequency);
    StartSets(states[i], output, desired, now, frequency);
    var duration, deadline := StartTimes(states[i], output, desired, now, frequency);
    states[i] := states[i].(startOutput := output);
    states[i] := states[i].(target := desired);
    states[i] := states[i].(durationSeconds := duration);
    states[i] := states[i].(startCounter := now);
    states[i] := states[i].(evaluatedCounter := now);
    states[i] := states[i].(phase := 0.0);
    states[i] := states[i].(transitioning := Abs(desired - output) > 0.0);
    states[i] := states[i].(transitionEndCounter := if states[i].transitioning then deadline else 0);
    assert states[..] == before[i := after];
  }

  /** How long a blend takes at the present pace, and by when it is certainly over. */
  method StartTimes(state: TransitionState, output: real, desired: real, now: int, frequency: int)
    returns (duration: real, deadline: int)
    requires frequency > 0
    ensures var s := Start(state, output, desired, now, frequency);
            duration == s.durationSeconds && (s.transitioning ==> deadline == s.transitionEndCounter)
  {
    hide MoveWeight;
    var age := if state.moveSeen then Seconds(now - state.lastMoveCounter, frequency) else 2.0 * MOVE_RECENT_SECONDS;
    var moving := Clamped(age);
    var distance := Abs(desired - output);
    RateIsPositive(desired, age);
    duration := distance / Rate(desired, moving);
    deadline := now + Ceil(distance * SlowSeconds(desired) * frequency as real);
  }

  method Clamped(age: real) returns (moving: real)
    ensures moving == MoveWeight(age)
  {
    moving := 2.0 - age / MOVE_RECENT_SECONDS;
    if moving < 0.0 { moving := 0.0; }
    if moving > 1.0 { moving := 1.0; }
  }

  lemma StartSets(s: TransitionState, output: real, desired: real, now: int, frequency: int)
    requires frequency > 0
    ensures var t := Start(s, output, desired, now, frequency);
            && t.transitioning == (Abs(desired - output) > 0.0)
            && t == s.(startOutput := output, target := desired, durationSeconds := t.durationSeconds,
                       startCounter := now, evaluatedCounter := now, phase := 0.0, transitioning := t.transitioning,
                       transitionEndCounter := if t.transitioning then t.transitionEndCounter else 0)
  {
  }

  // ---------- How fast a blend can be ----------

  lemma SecondsAdd(a: int, b: int, frequency: int)
    requires frequency > 0
    ensures Seconds(a + b, frequency) == Seconds(a, frequency) + Seconds(b, frequency)
    ensures a >= 0 ==> Seconds(a, frequency) >= 0.0
    ensures a <= 0 ==> Seconds(a, frequency) <= 0.0
  {
  }

  /** A distance that can be covered in the given time. */
  ghost predicate InPace(target: real, covered: real, seconds: real) {
    AtSlowSpeed(target, seconds) <= covered <= AtFastSpeed(target, seconds)
  }

  lemma InPaceAdds(target: real, c1: real, s1: real, c2: real, s2: real)
    requires InPace(target, c1, s1) && InPace(target, c2, s2)
    ensures InPace(target, c1 + c2, s1 + s2)
  {
  }

  lemma MixedSpeed(target: real, elapsed: real, area: real)
    requires 0.0 <= area <= elapsed
    ensures InPace(target, Covered(target, elapsed, area), elapsed)
    ensures Covered(target, elapsed, area) >= 0.0
  {
  }

  lemma MovingAreaBounds(s: TransitionState, now: int, frequency: int)
    requires frequency > 0 && now >= s.evaluatedCounter
    ensures 0.0 <= MovingArea(s, now, frequency) <= Seconds(now - s.evaluatedCounter, frequency)
  {
    SecondsAdd(now - s.evaluatedCounter, s.evaluatedCounter - s.lastMoveCounter, frequency);
    AreaBounds(Seconds(s.evaluatedCounter - s.lastMoveCounter, frequency),
               Seconds(now - s.lastMoveCounter, frequency));
  }

  /** Whatever was observed, the distance covered lies between the two speeds. */
  lemma TravelBounds(s: TransitionState, now: int, frequency: int)
    requires frequency > 0 && now >= s.evaluatedCounter
    ensures TravelInPace(s, now, Travel(s, now, frequency), frequency)
  {
    MovingAreaBounds(s, now, frequency);
    MixedSpeed(s.target, Seconds(now - s.evaluatedCounter, frequency), MovingArea(s, now, frequency));
  }

  ghost predicate TravelInPace(s: TransitionState, now: int, travel: real, frequency: int)
    requires frequency > 0
  {
    travel >= 0.0 && InPace(s.target, travel, Seconds(now - s.evaluatedCounter, frequency))
  }

  /** The distance covered adds up, however the interval is cut. */
  lemma TravelSplits(s: TransitionState, middle: int, now: int, frequency: int)
    requires frequency > 0
    ensures Travel(s, now, frequency) ==
            Travel(s, middle, frequency) + Travel(s.(evaluatedCounter := middle), now, frequency)
  {
    SecondsAdd(middle - s.evaluatedCounter, now - middle, frequency);
    CoveredAdds(s.target, Seconds(middle - s.evaluatedCounter, frequency), MovingArea(s, middle, frequency),
                Seconds(now - middle, frequency), MovingArea(s.(evaluatedCounter := middle), now, frequency));
  }

  lemma CoveredAdds(target: real, e1: real, a1: real, e2: real, a2: real)
    ensures Covered(target, e1 + e2, a1 + a2) == Covered(target, e1, a1) + Covered(target, e2, a2)
  {
  }

  // ---------- A blend over time ----------

  /** What one hook call does to a blend before it looks at its inputs: evaluate, and record the pose. */
  function Advance(ease: real -> real, s: TransitionState, now: int, frequency: int): TransitionState
    requires frequency > 0
  {
    var e := Evaluate(ease, s, now, frequency);
    e.state.(lastOutput := e.output)
  }

  /** The observation of a moving node. */
  function ObserveMove(s: TransitionState, now: int): TransitionState {
    s.(lastMoveCounter := now, moveSeen := true)
  }

  /** What holds of every blend between calls. */
  ghost predicate Blending(ease: real -> real, s: TransitionState, frequency: int)
    requires frequency > 0
  {
    s.transitioning ==>
      && Distance(s) > 0.0
      && 0.0 <= s.phase < 1.0
      && s.startCounter <= s.evaluatedCounter
      && Posed(ease, s)
      && Scheduled(s, frequency)
      && InStep(s, frequency)
  }

  /** The recorded output is the pose at the recorded phase. */
  ghost predicate Posed(ease: real -> real, s: TransitionState) {
    s.lastOutput == Pose(ease, s)
  }

  /** The deadline is the one computed at the start. */
  ghost predicate Scheduled(s: TransitionState, frequency: int) {
    s.transitionEndCounter == s.startCounter + Ceil(Distance(s) * SlowSeconds(s.target) * frequency as real)
  }

  ghost function Progress(s: TransitionState): real { Share(s.phase, Distance(s)) }

  /** The distance covered agrees with the time since the start. */
  ghost predicate InStep(s: TransitionState, frequency: int)
    requires frequency > 0
  {
    InPace(s.target, Progress(s), Seconds(s.evaluatedCounter - s.startCounter, frequency))
  }

  lemma StartBlends(ease: real -> real, s: TransitionState, output: real, desired: real, now: int, frequency: int)
    requires frequency > 0 && Easing(ease) && s.lastOutput == output
    ensures var started := Start(s, output, desired, now, frequency);
            && Blending(ease, started, frequency)
            && (started.transitioning <==> output != desired)
            && (started.transitioning ==> Pose(ease, started) == output)
  {
  }

  /** The moving influence at a retarget. */
  function Influence(s: TransitionState, now: int, frequency: int): real
    requires frequency > 0
  {
    MoveWeight(if s.moveSeen then Seconds(now - s.lastMoveCounter, frequency) else 2.0 * MOVE_RECENT_SECONDS)
  }

  /** The stored duration is what the whole distance takes if the moving influence stays as it is;
      it is never longer than the slow pace nor shorter than the fast one. */
  lemma DurationIsItsPace(s: TransitionState, output: real, desired: real, now: int, frequency: int)
    requires frequency > 0
    ensures var duration := Start(s, output, desired, now, frequency).durationSeconds;
            && Covered(desired, duration, Share(Influence(s, now, frequency), duration)) == Abs(desired - output)
            && InPace(desired, Abs(desired - output), duration)
  {
    hide Start, InPace, Abs, Covered, Share, Rate, Influence;
    StartDuration(s, output, desired, now, frequency);
    PaceOfDuration(desired, Start(s, output, desired, now, frequency).durationSeconds, Influence(s, now, frequency),
                   Abs(desired - output));
  }

  /** How the duration is computed. */
  lemma StartDuration(s: TransitionState, output: real, desired: real, now: int, frequency: int)
    requires frequency > 0
    ensures Rate(desired, Influence(s, now, frequency)) > 0.0 && Abs(desired - output) >= 0.0
    ensures 0.0 <= Influence(s, now, frequency) <= 1.0
    ensures Start(s, output, desired, now, frequency).durationSeconds ==
            Abs(desired - output) / Rate(desired, Influence(s, now, frequency))
  {
    hide MoveWeight, Seconds, SlowSeconds, Ceil, Rate;
    var age := if s.moveSeen then Seconds(now - s.lastMoveCounter, frequency) else 2.0 * MOVE_RECENT_SECONDS;
    RateIsPositive(desired, age);
    WeightFalls(age, age);
  }

  lemma PaceOfDuration(target: real, duration: real, weight: real, distance: real)
    requires 0.0 <= weight <= 1.0 && distance >= 0.0
    requires Rate(target, weight) > 0.0 && duration == distance / Rate(target, weight)
    ensures Covered(target, duration, Share(weight, duration)) == distance && InPace(target, distance, duration)
  {
    hide InPace, Covered, Share, Rate;
    SpreadRate(target, duration, weight, distance);
    Portion(weight, duration);
    MixedSpeed(target, duration, Share(weight, duration));
  }

  lemma Portion(weight: real, x: real)
    requires 0.0 <= weight <= 1.0 && x >= 0.0
    ensures 0.0 <= Share(weight, x) <= x
  {
    Scale(x, 0.0, weight);
    Scale(x, weight, 1.0);
  }

  lemma SpreadRate(target: real, duration: real, weight: real, distance: real)
    requires Rate(target, weight) > 0.0 && distance >= 0.0 && duration == distance / Rate(target, weight)
    ensures duration >= 0.0 && Covered(target, duration, Share(weight, duration)) == distance
  {
    Quotient(distance, Rate(target, weight));
    Distribute(duration, 1.0 / IdleSeconds(target), weight, 1.0 / MOVE_SECONDS - 1.0 / IdleSeconds(target));
  }

  lemma Quotient(x: real, y: real)
    requires x >= 0.0 && y > 0.0
    ensures x / y >= 0.0 && x / y * y == x
  {
  }

  lemma Distribute(x: real, a: real, b: real, c: real)
    ensures x * (a + b * c) == x * a + b * x * c
  {
    assert x * (b * c) == b * x * c;
  }

  /** The deadline that a retarget stores is the first counter value at which even the slow pace has
      covered the whole distance. */
  lemma DeadlineIsLeast(s: TransitionState, output: real, desired: real, now: int, frequency: int, counter: int)
    requires frequency > 0 && output != desired
    ensures Seconds(counter - now, frequency) >= Abs(desired - output) * SlowSeconds(desired) <==>
            counter >= Start(s, output, desired, now, frequency).transitionEndCounter
  {
    hide MoveWeight, SlowSeconds, Seconds;
    LeastTicks(Abs(desired - output) * SlowSeconds(desired), counter - now, frequency);
  }

  lemma LeastTicks(seconds: real, ticks: int, frequency: int)
    requires frequency > 0
    ensures Seconds(ticks, frequency) >= seconds <==> ticks >= Ceil(seconds * frequency as real)
  {
    var f := frequency as real;
    assert Seconds(ticks, frequency) * f == ticks as real;
    if Seconds(ticks, frequency) >= seconds {
      Scale(f, seconds, Seconds(ticks, frequency));
    } else {
      ScaleStrictly(f, Seconds(ticks, frequency), seconds);
    }
  }

  lemma ScaleStrictly(w: real, x: real, y: real)
    requires w > 0.0 && x < y
    ensures x * w < y * w
  {
  }

  /** `InStep` survives covering any distance between the two speeds. */
  lemma MovedInStep(s: TransitionState, now: int, travel: real, frequency: int)
    requires frequency > 0 && Distance(s) > 0.0 && InStep(s, frequency)
    requires TravelInPace(s, now, travel, frequency)
    ensures InStep(Moved(s, now, travel), frequency)
  {
    SecondsAdd(s.evaluatedCounter - s.startCounter, now - s.evaluatedCounter, frequency);
    MovedProgress(s, now, travel);
    InPaceAdds(s.target, Progress(s), Seconds(s.evaluatedCounter - s.startCounter, frequency),
               travel, Seconds(now - s.evaluatedCounter, frequency));
  }

  lemma MovedProgress(s: TransitionState, now: int, travel: real)
    requires Distance(s) > 0.0 && travel >= 0.0
    ensures Progress(Moved(s, now, travel)) == Progress(s) + travel
    ensures Moved(s, now, travel).phase >= s.phase
  {
    MoreTravel(s.phase, travel, Distance(s));
  }

  lemma MoreTravel(phase: real, travel: real, distance: real)
    requires distance > 0.0 && travel >= 0.0
    ensures phase + travel / distance >= phase
    ensures (phase + travel / distance) * distance == phase * distance + travel
  {
  }

  lemma AdvanceBlends(ease: real -> real, s: TransitionState, now: int, frequency: int)
    requires frequency > 0 && Blending(ease, s, frequency)
    ensures Blending(ease, Advance(ease, s, now, frequency), frequency)
  {
    if s.transitioning && now > s.evaluatedCounter {
      TravelBounds(s, now, frequency);
      SettleBlends(ease, s, now, Travel(s, now, frequency), frequency);
    }
  }

  lemma SettleBlends(ease: real -> real, s: TransitionState, now: int, travel: real, frequency: int)
    requires frequency > 0 && Blending(ease, s, frequency) && s.transitioning && now > s.evaluatedCounter
    requires TravelInPace(s, now, travel, frequency)
    ensures var e := Settle(ease, Moved(s, now, travel));
            Blending(ease, e.state.(lastOutput := e.output), frequency)
  {
    var moved := Moved(s, now, travel);
    var e := Settle(ease, moved);
    var r := e.state.(lastOutput := e.output);
    MovedInStep(s, now, travel, frequency);
    MovedProgress(s, now, travel);
    SamePlan(s, r, frequency);
    if r.transitioning {
      SettlePosed(ease, moved);
    }
    hide Posed, Scheduled, Share, InPace, Seconds;
  }

  lemma SettlePosed(ease: real -> real, moved: TransitionState)
    requires moved.phase < 1.0
    ensures var e := Settle(ease, moved);
            Posed(ease, e.state.(lastOutput := e.output))
  {
  }

  lemma SamePlan(s: TransitionState, r: TransitionState, frequency: int)
    requires r.target == s.target && r.startOutput == s.startOutput && r.startCounter == s.startCounter
    ensures Distance(r) == Distance(s)
    ensures r.transitionEndCounter == s.transitionEndCounter ==>
              Scheduled(r, frequency) == Scheduled(s, frequency)
  {
  }

  lemma ObserveBlends(ease: real -> real, s: TransitionState, now: int, frequency: int)
    requires frequency > 0 && Blending(ease, s, frequency)
    ensures Blending(ease, ObserveMove(s, now), frequency)
  {
  }

  /** At its deadline every blend is over. */
  lemma DeadlineCompletes(ease: real -> real, s: TransitionState, now: int, frequency: int)
    requires frequency > 0 && Blending(ease, s, frequency)
    requires s.transitioning && now >= s.transitionEndCounter
    ensures var e := Evaluate(ease, s, now, frequency);
            e.completed && !e.state.transitioning && e.output == s.target
  {
    if s.evaluatedCounter >= s.transitionEndCounter {
      OverdueIsFull(s, frequency);
    } else {
      TravelBounds(s, now, frequency);
      DeadlineSettles(ease, s, now, Travel(s, now, frequency), frequency);
    }
  }

  lemma DeadlineSettles(ease: real -> real, s: TransitionState, now: int, travel: real, frequency: int)
    requires frequency > 0 && Blending(ease, s, frequency) && s.transitioning
    requires now > s.evaluatedCounter && now >= s.transitionEndCounter
    requires TravelInPace(s, now, travel, frequency)
    ensures Moved(s, now, travel).phase >= 1.0
  {
    var moved := Moved(s, now, travel);
    MovedInStep(s, now, travel, frequency);
    SamePlan(s, moved, frequency);
    hide Scheduled, InStep, Distance;
    OverdueIsFull(moved, frequency);
  }

  lemma OverdueIsFull(s: TransitionState, frequency: int)
    requires frequency > 0 && InStep(s, frequency) && Distance(s) > 0.0
    requires Scheduled(s, frequency) && s.evaluatedCounter >= s.transitionEndCounter
    ensures s.phase >= 1.0
  {
    var ticks := s.evaluatedCounter - s.startCounter;
    DeadlineSeconds(Distance(s) * SlowSeconds(s.target), ticks, frequency);
    PhaseFull(s.phase, Distance(s), Seconds(ticks, frequency), s.target);
  }

  lemma DeadlineSeconds(seconds: real, ticks: int, frequency: int)
    requires frequency > 0 && ticks >= Ceil(seconds * frequency as real)
    ensures Seconds(ticks, frequency) >= seconds
  {
    assert ticks as real >= seconds * frequency as real;
  }

  lemma PhaseFull(phase: real, d: real, elapsed: real, target: real)
    requires d > 0.0 && elapsed >= d * SlowSeconds(target) && InPace(target, phase * d, elapsed)
    ensures phase >= 1.0
  {
    assert AtSlowSpeed(target, elapsed) >= d;
  }

  /** No blend is over before it could have covered its distance at the faster speed. */
  lemma NoEarlyCompletion(ease: real -> real, s: TransitionState, now: int, frequency: int)
    requires frequency > 0 && Blending(ease, s, frequency)
    requires s.transitioning && Evaluate(ease, s, now, frequency).completed
    ensures Seconds(now - s.startCounter, frequency) >= Distance(s) * FastSeconds(s.target)
  {
    CompletedIsFull(ease, s, now, frequency);
    TravelBounds(s, now, frequency);
    FullTookTime(s, now, Travel(s, now, frequency), frequency);
  }

  lemma CompletedIsFull(ease: real -> real, s: TransitionState, now: int, frequency: int)
    requires frequency > 0 && Distance(s) > 0.0 && Evaluate(ease, s, now, frequency).completed
    ensures now > s.evaluatedCounter && Moved(s, now, Travel(s, now, frequency)).phase >= 1.0
  {
  }

  lemma FullTookTime(s: TransitionState, now: int, travel: real, frequency: int)
    requires frequency > 0 && Distance(s) > 0.0 && InStep(s, frequency)
    requires TravelInPace(s, now, travel, frequency) && Moved(s, now, travel).phase >= 1.0
    ensures Seconds(now - s.startCounter, frequency) >= Distance(s) * FastSeconds(s.target)
  {
    hide Distance, Seconds, FastSeconds, InStep, TravelInPace;
    var moved := Moved(s, now, travel);
    MovedInStep(s, now, travel, frequency);
    SamePlan(s, moved, frequency);
    FullTakesTime(moved, frequency);
  }

  lemma FullTakesTime(s: TransitionState, frequency: int)
    requires frequency > 0 && InStep(s, frequency) && Distance(s) > 0.0 && s.phase >= 1.0
    ensures Seconds(s.evaluatedCounter - s.startCounter, frequency) >= Distance(s) * FastSeconds(s.target)
  {
    FullPace(s.phase, Distance(s), Seconds(s.evaluatedCounter - s.startCounter, frequency), s.target);
  }

  lemma FullPace(phase: real, d: real, elapsed: real, target: real)
    requires d > 0.0 && phase >= 1.0 && InPace(target, Share(phase, d), elapsed)
    ensures elapsed >= d * FastSeconds(target)
  {
    Scale(d, 1.0, phase);
    var covered := AtFastSpeed(target, elapsed);
    assert covered >= d;
    if target > 0.5 {
      assert elapsed == covered * MOVE_SECONDS;
    }
  }

  // ---------- Runs of observations ----------

  /** One evaluation of a blend, by a moving node or by the idle one. */
  datatype Tick = Tick(now: int, moving: bool)

  ghost predicate Ordered(ticks: seq<Tick>) {
    forall i, j :: 0 <= i < j < |ticks| ==> ticks[i].now <= ticks[j].now
  }

  function TickStep(ease: real -> real, s: TransitionState, tick: Tick, frequency: int): TransitionState
    requires frequency > 0
  {
    var advanced := Advance(ease, s, tick.now, frequency);
    if tick.moving then ObserveMove(advanced, tick.now) else advanced
  }

  function TickRun(ease: real -> real, s: TransitionState, ticks: seq<Tick>, frequency: int): (r: TransitionState)
    requires frequency > 0
    ensures r.transitioning ==> s.transitioning
    ensures r.target == s.target && r.startOutput == s.startOutput && r.startCounter == s.startCounter
    decreases |ticks|
  {
    if ticks == [] then s
    else TickStep(ease, TickRun(ease, s, ticks[..|ticks| - 1], frequency), ticks[|ticks| - 1], frequency)
  }

  lemma TickBlends(ease: real -> real, s: TransitionState, tick: Tick, frequency: int)
    requires frequency > 0 && Blending(ease, s, frequency)
    ensures var r := TickStep(ease, s, tick, frequency);
            && Blending(ease, r, frequency)
            && (r.transitioning ==> r.transitionEndCounter == s.transitionEndCounter)
  {
    AdvanceBlends(ease, s, tick.now, frequency);
    ObserveBlends(ease, Advance(ease, s, tick.now, frequency), tick.now, frequency);
  }

  /** Every pattern of observations keeps the blend in step, and none moves its deadline. */
  lemma {:induction false} RunBlends(ease: real -> real, s: TransitionState, ticks: seq<Tick>, frequency: int)
    requires frequency > 0 && Blending(ease, s, frequency)
    ensures var r := TickRun(ease, s, ticks, frequency);
            && Blending(ease, r, frequency)
            && (r.transitioning ==> r.transitionEndCounter == s.transitionEndCounter)
    decreases |ticks|
  {
    if ticks != [] {
      var before := ticks[..|ticks| - 1];
      RunBlends(ease, s, before, frequency);
      TickBlends(ease, TickRun(ease, s, before, frequency), ticks[|ticks| - 1], frequency);
    }
  }

  /** The deadline computed at the start is sound for every later pattern of moving nodes:
      a tick at or after it finds the blend at its target, and no tick finds the blend over
      before the distance could be covered at the faster speed. */
  lemma DeadlineIsSound(ease: real -> real, s: TransitionState, output: real, desired: real, now: int,
                        ticks: seq<Tick>, frequency: int)
    requires frequency > 0 && Easing(ease) && s.lastOutput == output && output != desired
    requires ticks != []
    ensures var started := Start(s, output, desired, now, frequency);
            var r := TickRun(ease, started, ticks, frequency);
            var last := ticks[|ticks| - 1].now;
            && (last >= started.transitionEndCounter ==> !r.transitioning && r.lastOutput == desired)
            && (Ordered(ticks) && !r.transitioning ==>
                  Seconds(last - now, frequency) >= Abs(desired - output) * FastSeconds(desired))
  {
    var started := Start(s, output, desired, now, frequency);
    var before, last := ticks[..|ticks| - 1], ticks[|ticks| - 1];
    StartBlends(ease, s, output, desired, now, frequency);
    StartDistance(s, output, desired, now, frequency);
    RunBlends(ease, started, before, frequency);
    var r := TickRun(ease, started, before, frequency);
    if r.transitioning ==> last.now >= started.transitionEndCounter {
      TickDeadline(ease, r, last, frequency);
    }
    hide Blending, TickStep, Start, Seconds, FastSeconds;
    if Ordered(ticks) && !TickRun(ease, started, ticks, frequency).transitioning {
      CompletedEarlier(ease, started, ticks, frequency);
    }
  }

  lemma StartDistance(s: TransitionState, output: real, desired: real, now: int, frequency: int)
    requires frequency > 0
    ensures var started := Start(s, output, desired, now, frequency);
            && started.target == desired && started.startCounter == now
            && Distance(started) == Abs(desired - output)
            && (started.transitioning <==> Distance(started) > 0.0)
  {
  }

  lemma TickDeadline(ease: real -> real, s: TransitionState, tick: Tick, frequency: int)
    requires frequency > 0 && Blending(ease, s, frequency)
    requires s.transitioning ==> tick.now >= s.transitionEndCounter
    ensures var r := TickStep(ease, s, tick, frequency);
            !r.transitioning && r.lastOutput == s.target
  {
    if s.transitioning {
      DeadlineCompletes(ease, s, tick.now, frequency);
      hide Evaluate;
    }
  }

  /** A blend found over was completed by some tick, none of which came too early. */
  lemma {:induction false} CompletedEarlier(ease: real -> real, s: TransitionState, ticks: seq<Tick>, frequency: int)
    requires frequency > 0 && Blending(ease, s, frequency) && s.transitioning
    requires Ordered(ticks) && !TickRun(ease, s, ticks, frequency).transitioning
    ensures ticks != []
    ensures Seconds(ticks[|ticks| - 1].now - s.startCounter, frequency) >= Distance(s) * FastSeconds(s.target)
    decreases |ticks|
  {
    var before, last := ticks[..|ticks| - 1], ticks[|ticks| - 1];
    RunBlends(ease, s, before, frequency);
    var r := TickRun(ease, s, before, frequency);
    if r.transitioning {
      NoEarlyCompletion(ease, r, last.now, frequency);
    } else {
      CompletedEarlier(ease, s, before, frequency);
      var previous := before[|before| - 1];
      assert previous == ticks[|ticks| - 2];
      SecondsAdd(last.now - previous.now, previous.now - s.startCounter, frequency);
    }
  }

  // ---------- The output does not depend on how often it is asked for ----------

  /** Equal, except that a blend that is over no longer cares when it was last evaluated. */
  ghost predicate SameBlend(a: TransitionState, b: TransitionState) {
    && a.(evaluatedCounter := b.evaluatedCounter) == b
    && (a.transitioning ==> a == b)
  }

  /** One evaluation more on the way changes nothing. */
  lemma EvaluationSplits(ease: real -> real, s: TransitionState, middle: int, now: int, frequency: int)
    requires frequency > 0 && middle <= now && (s.transitioning ==> Distance(s) > 0.0)
    ensures SameBlend(Advance(ease, Advance(ease, s, middle, frequency), now, frequency),
                      Advance(ease, s, now, frequency))
  {
    if s.transitioning && middle > s.evaluatedCounter {
      var at := Moved(s, middle, Travel(s, middle, frequency));
      var rest := Travel(s.(evaluatedCounter := middle), now, frequency);
      TravelSplits(s, middle, now, frequency);
      TravelBounds(s.(evaluatedCounter := middle), now, frequency);
      MovedTwice(s, middle, Travel(s, middle, frequency), now, rest);
      MoreTravel(at.phase, rest, Distance(s));
      TravelIgnores(s.(evaluatedCounter := middle), Advance(ease, s, middle, frequency), now, frequency);
      hide Travel, Pose;
      if middle == now {
        assert Advance(ease, Advance(ease, s, middle, frequency), now, frequency) ==
               Advance(ease, s, middle, frequency);
      }
    }
  }

  lemma AddProducts(x: real, y: real, d: real)
    requires d > 0.0
    ensures (x + y) / d == x / d + y / d
  {
  }

  lemma MovedTwice(s: TransitionState, middle: int, first: real, now: int, second: real)
    requires Distance(s) > 0.0
    ensures Moved(Moved(s, middle, first), now, second) == Moved(s, now, first + second)
  {
    AddProducts(first, second, Distance(s));
  }

  lemma TravelIgnores(s: TransitionState, r: TransitionState, now: int, frequency: int)
    requires frequency > 0 && r.target == s.target && r.evaluatedCounter == s.evaluatedCounter
    requires r.moveSeen == s.moveSeen && r.lastMoveCounter == s.lastMoveCounter
    ensures Travel(r, now, frequency) == Travel(s, now, frequency)
  {
    hide Seconds, MoveArea, Covered;
  }

  /** Evaluations at several times, with no moving node observed between them. */
  function AdvanceAll(ease: real -> real, s: TransitionState, times: seq<int>, frequency: int): (r: TransitionState)
    requires frequency > 0
    ensures r.transitioning ==> s.transitioning
    ensures r.target == s.target && r.startOutput == s.startOutput
    decreases |times|
  {
    if times == [] then s
    else Advance(ease, AdvanceAll(ease, s, times[..|times| - 1], frequency), times[|times| - 1], frequency)
  }

  /** Any rising sequence of evaluations leaves what its last one alone would have left. */
  lemma {:induction false} CadenceIndependent(ease: real -> real, s: TransitionState, times: seq<int>, frequency: int)
    requires frequency > 0 && (s.transitioning ==> Distance(s) > 0.0)
    requires times != [] && forall i, j :: 0 <= i < j < |times| ==> times[i] <= times[j]
    ensures SameBlend(AdvanceAll(ease, s, times, frequency), Advance(ease, s, times[|times| - 1], frequency))
    decreases |times|
  {
    var before, last := times[..|times| - 1], times[|times| - 1];
    if before != [] {
      CadenceIndependent(ease, s, before, frequency);
      var middle := before[|before| - 1];
      assert middle == times[|times| - 2];
      EvaluationSplits(ease, s, middle, last, frequency);
      AdvanceSame(ease, AdvanceAll(ease, s, before, frequency), Advance(ease, s, middle, frequency), last, frequency);
    }
  }

  lemma AdvanceSame(ease: real -> real, a: TransitionState, b: TransitionState, now: int, frequency: int)
    requires frequency > 0 && SameBlend(a, b) && (a.transitioning ==> Distance(a) > 0.0)
    ensures SameBlend(Advance(ease, a, now, frequency), Advance(ease, b, now, frequency))
  {
  }

  /** A second evaluation at the same counter value reports the same pose, even if a moving
      node was observed in between. */
  lemma SharedPose(ease: real -> real, s: TransitionState, now: int, frequency: int)
    requires frequency > 0
    ensures var first := Advance(ease, s, now, frequency);
            Advance(ease, ObserveMove(first, now), now, frequency).lastOutput == first.lastOutput
  {
    hide Travel, Pose;
  }

  // ---------- Where the output can be ----------

  ghost predicate InRange(x: real, a: real, b: real) {
    a <= x <= b || b <= x <= a
  }

  /** The output stays between where the blend started and its target, and only ever comes
      closer to the target. */
  lemma OutputAdvances(ease: real -> real, s: TransitionState, now: int, frequency: int)
    requires frequency > 0 && Easing(ease) && Blending(ease, s, frequency) && s.transitioning
    ensures var output := Advance(ease, s, now, frequency).lastOutput;
            InRange(s.lastOutput, s.startOutput, s.target) && InRange(output, s.lastOutput, s.target)
  {
    PoseInRange(ease, s.startOutput, s.target, 0.0, s.phase);
    PoseInRange(ease, s.startOutput, s.target, s.phase, 1.0);
    if now > s.evaluatedCounter {
      var travel := Travel(s, now, frequency);
      TravelBounds(s, now, frequency);
      MovedProgress(s, now, travel);
      var moved := Moved(s, now, travel);
      if moved.phase < 1.0 {
        PoseInRange(ease, s.startOutput, s.target, s.phase, moved.phase);
        PoseInRange(ease, s.startOutput, s.target, moved.phase, 1.0);
      }
      hide Travel, InStep, Scheduled, Share, PoseAt, InPace;
    }
  }

  lemma PoseInRange(ease: real -> real, start: real, target: real, from: real, to: real)
    requires Easing(ease) && 0.0 <= from <= to <= 1.0
    ensures var x, y := PoseAt(ease, start, target, from), PoseAt(ease, start, target, to);
            && InRange(x, start, y)
            && (to == 1.0 ==> y == target)
            && (from == 0.0 ==> x == start)
  {
    var x, y := ease(from), ease(to);
    assert ease(0.0) <= x <= y <= ease(1.0);
    Shares(x, y, target - start);
    hide Share;
  }

  lemma Shares(x: real, y: real, d: real)
    requires 0.0 <= x <= y
    ensures 0.0 <= Share(x, d) <= Share(y, d) || Share(y, d) <= Share(x, d) <= 0.0
    ensures Share(0.0, d) == 0.0 && Share(1.0, d) == d
  {
    if d >= 0.0 {
      Scale(d, x, y);
      Scale(d, 0.0, x);
    } else {
      Scale(-d, x, y);
      Scale(-d, 0.0, x);
    }
  }

  /** A retarget does not jump: at the moment it happens the new blend is where the old one was. */
  lemma RetargetContinuous(ease: real -> real, s: TransitionState, desired: real, now: int, frequency: int)
    requires frequency > 0 && Easing(ease)
    ensures var here := Advance(ease, s, now, frequency);
            var started := Start(here, here.lastOutput, desired, now, frequency);
            && Pose(ease, started) == here.lastOutput
            && started.lastOutput == here.lastOutput
            && Advance(ease, started, now, frequency).lastOutput == here.lastOutput
  {
    hide Travel;
  }
}
