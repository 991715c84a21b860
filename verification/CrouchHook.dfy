/**
 The blend-weight hook (native/vivoxproxy/crouch_parity_patch.h:590-727), one atomic step
 under the state lock.
 */
module CrouchHook {
  import opened CrouchStateCache
  import opened CrouchTransition

  /** One hook call that passed its identity checks, with the counter read under the lock. */
  datatype Call = Call(network: Pointer, generation: Pointer, controlGeneration: Pointer,
                       raw: real, control: real, moving: bool, now: int, sequence: int)

  /** The stock blend weights, or the weight of a crouch blend. */
  datatype Outcome = Stock | Weight(output: real)

  /** The mutable state behind the lock. */
  datatype World = World(states: seq<TransitionState>, hints: seq<nat>)

  function Desired(control: real): real { if control >= 0.5 then 1.0 else 0.0 }

  /** Two seconds, in counter ticks. */
  function StaleTicks(frequency: int): (ticks: int)
    requires frequency > 0
    ensures ticks == 2 * frequency
  {
    (2.0 * frequency as real + 0.5).Floor
  }

  function RequestOf(c: Call, frequency: int): Request
    requires frequency > 0
  {
    Request(c.network, c.generation, c.controlGeneration, c.now, StaleTicks(frequency), c.sequence)
  }

  /** What a call does to the state it acquired. */
  function BlendStep(ease: real -> real, s: TransitionState, c: Call, frequency: int): TransitionState
    requires frequency > 0
  {
    var desired := Desired(c.control);
    if !s.initialized then
      var begun := s.(lastRaw := c.raw, lastControl := c.control, lastOutput := desired, startOutput := desired,
                      target := desired, durationSeconds := 0.0, startCounter := c.now,
                      transitionEndCounter := 0, initialized := true);
      if c.moving then ObserveMove(begun, c.now) else begun
    else
      var here := TickStep(ease, s, Tick(c.now, c.moving), frequency);
      var next := if desired != here.target then Start(here, here.lastOutput, desired, c.now, frequency) else here;
      next.(lastRaw := c.raw, lastControl := c.control)
  }

  /** One call against the bounded table. */
  function HookStep(ease: real -> real, w: World, c: Call, frequency: int): (World, Outcome)
    requires frequency > 0 && |w.hints| > 0
  {
    var r := RequestOf(c, frequency);
    var a := AcquireHint(w.states, w.hints, r);
    var hints := UpdatedHints(w.states, w.hints, r);
    if a.slot.NoSlot? || a.slot.index >= |a.states| then (World(a.states, hints), Stock)
    else
      var s := BlendStep(ease, a.states[a.slot.index], c, frequency);
      (World(a.states[a.slot.index := s], hints), Weight(s.lastOutput))
  }

  /** The table behind the lock, updated in place. */
  class Hook {
    const states: array<TransitionState>
    const hints: array<nat>
    const frequency: int
    const ease: real -> real

    ghost predicate Valid()
      reads this
    {
      frequency > 0 && hints.Length > 0
    }

    ghost function Abstract(): World
      reads this, states, hints
    {
      World(states[..], hints[..])
    }

    constructor (ease: real -> real, frequency: int)
      requires frequency > 0
      ensures Valid() && fresh(states) && fresh(hints) && this.ease == ease && this.frequency == frequency
      ensures Abstract() == World(seq(CAPACITY, _ => ZeroState()), seq(CAPACITY, _ => 0))
    {
      this.ease, this.frequency := ease, frequency;
      states := new TransitionState[CAPACITY](_ => ZeroState());
      hints := new nat[CAPACITY](_ => 0);
    }

    method Step(c: Call) returns (outcome: Outcome)
      requires Valid()
      modifies states, hints
      ensures (Abstract(), outcome) == HookStep(ease, old(Abstract()), c, frequency)
    {
      var slot, lookup := AcquireHintInPlace(states, hints, RequestOf(c, frequency));
      if slot.NoSlot? || slot.index >= states.Length {
        return Stock;
      }
      ghost var acquired := states[..];
      assert AcquireHint(old(states[..]), old(hints[..]), RequestOf(c, frequency)) == Acquired(acquired, slot, lookup);
      var i := slot.index;
      var desired := Desired(c.control);
      if !states[i].initialized {
        states[i] := states[i].(lastRaw := c.raw, lastControl := c.control, lastOutput := desired,
                                startOutput := desired, target := desired, durationSeconds := 0.0,
                                startCounter := c.now, transitionEndCounter := 0, initialized := true);
        if c.moving {
          states[i] := ObserveMove(states[i], c.now);
        }
        outcome := Weight(desired);
        assert states[..] == acquired[i := BlendStep(ease, acquired[i], c, frequency)];
      } else {
        outcome := Retarget(i, desired, c);
      }
    }

    /** The branch for a state seen before. */
    method Retarget(i: nat, desired: real, c: Call) returns (outcome: Outcome)
      requires Valid() && i < states.Length && states[i].initialized && desired == Desired(c.control)
      modifies states
      ensures var s := BlendStep(ease, old(states[i]), c, frequency);
              states[..] == old(states[..])[i := s] && outcome == Weight(s.lastOutput)
    {
      hide Travel, PoseAt, MoveWeight, SlowSeconds;
      ghost var before := states[..];
      var output, completed := EvaluateInPlace(ease, states, i, c.now, frequency);
      ghost var here := TickStep(ease, before[i], Tick(c.now, c.moving), frequency);
      if c.moving {
        states[i] := ObserveMove(states[i], c.now);
      }
      assert states[i].(lastOutput := output) == here;
      if desired != states[i].target {
        StartInPlace(states, i, output, desired, c.now, frequency);
        output := states[i].startOutput;
      }
      states[i] := states[i].(lastRaw := c.raw, lastControl := c.control, lastOutput := output);
      outcome := Weight(output);
      ghost var next :=
        if desired != here.target then Start(here, here.lastOutput, desired, c.now, frequency) else here;
      assert output == here.lastOutput;
      assert states[i] == next.(lastRaw := c.raw, lastControl := c.control);
      assert states[i] == BlendStep(ease, before[i], c, frequency);
      assert states[..] == before[i := states[i]];
    }
  }
}
