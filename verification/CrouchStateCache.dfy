/**
 The bounded table of blend states (native/vivoxproxy/crouch_state_cache.h).

 A C array of structs is a Dafny array of `TransitionState` values, and a pointer
 into it is an index.  `Acquire` says what a lookup does to the sequence of states;
 the methods at the end perform it in place.
 */
module CrouchStateCache {

  const CAPACITY: nat := 256

  /** An address; zero is the null pointer. */
  type Pointer = p: int | 0 <= p < 0x1_0000_0000_0000_0000

  datatype TransitionState = TransitionState(
    network: Pointer,
    generation: Pointer,
    controlGeneration: Pointer,
    lastRaw: real,
    lastControl: real,
    lastOutput: real,
    startOutput: real,
    target: real,
    durationSeconds: real,
    phase: real,
    evaluatedCounter: int,
    startCounter: int,
    transitionEndCounter: int,
    lastMoveCounter: int,
    lastSeenCounter: int,
    lastCallSequence: int,
    initialized: bool,
    transitioning: bool,
    moveSeen: bool
  )

  datatype Event = Hit | Inserted | StaleReset | GenerationReset | Evicted | OutOfOrder | Pressure

  datatype Lookup = Lookup(event: Event, previousNetwork: Pointer, previousGeneration: Pointer,
                           previousControlGeneration: Pointer)

  /** The scalar arguments of one lookup. */
  datatype Request = Request(network: Pointer, generation: Pointer, controlGeneration: Pointer,
                             now: int, staleAfter: int, sequence: int)
  {
    predicate Valid() {
      network != 0 && generation != 0 && controlGeneration != 0 && staleAfter >= 0 && sequence > 0
    }
  }

  /** What a lookup leaves behind: the states, the slot it hands out (none: the caller
      keeps the stock blend), and its report. */
  datatype Acquired = Acquired(states: seq<TransitionState>, slot: Slot, lookup: Lookup)

  datatype Slot = NoSlot | Slot(index: nat)

  predicate IsActive(state: TransitionState, now: int) {
    state.transitioning && state.transitionEndCounter > now
  }

  predicate IsStale(state: TransitionState, now: int, staleAfter: int) {
    now > state.lastSeenCounter && now - state.lastSeenCounter > staleAfter
  }

  /** The zeroed struct carrying only its identity and the current call. */
  function ResetState(r: Request): TransitionState {
    ZeroState().(
      network := r.network,
      generation := r.generation,
      controlGeneration := r.controlGeneration,
      lastSeenCounter := r.now,
      lastCallSequence := r.sequence)
  }

  function ZeroState(): TransitionState {
    TransitionState(0, 0, 0, 0.0, 0.0, 0.0, 0.0, 0.0, 0.0, 0.0, 0, 0, 0, 0, 0, 0, false, false, false)
  }

  predicate Evictable(state: TransitionState, r: Request) {
    IsStale(state, r.now, r.staleAfter) && !IsActive(state, r.now)
  }

  function Report(event: Event, state: TransitionState): Lookup {
    Lookup(event, state.network, state.generation, state.controlGeneration)
  }

  // ---------- What a lookup selects ----------

  /** The first slot of `s[lo..hi]` that holds `network`, or `hi`. */
  function Find(s: seq<TransitionState>, lo: nat, hi: nat, network: Pointer): (i: nat)
    requires lo <= hi <= |s|
    ensures lo <= i <= hi
    ensures i < hi ==> s[i].network == network
    ensures forall k :: lo <= k < i ==> s[k].network != network
    decreases hi - lo
  {
    if lo == hi || s[lo].network == network then lo else Find(s, lo + 1, hi, network)
  }

  /** The least recently seen evictable slot of `s[lo..hi]`, the first of several, or `hi`. */
  function Oldest(s: seq<TransitionState>, lo: nat, hi: nat, r: Request): (i: nat)
    requires lo <= hi <= |s|
    ensures lo <= i <= hi
    ensures i < hi ==> s[i].network != 0 && Evictable(s[i], r)
    ensures i == hi ==> forall k :: lo <= k < hi && s[k].network != 0 ==> !Evictable(s[k], r)
    ensures i < hi ==> forall k :: lo <= k < hi && s[k].network != 0 && Evictable(s[k], r) ==>
                         s[i].lastSeenCounter <= s[k].lastSeenCounter
    decreases hi - lo
  {
    if lo == hi then lo
    else
      var i := Oldest(s, lo, hi - 1, r);
      if s[hi - 1].network != 0 && Evictable(s[hi - 1], r) &&
         (i == hi - 1 || s[hi - 1].lastSeenCounter < s[i].lastSeenCounter) then hi - 1
      else if i == hi - 1 then hi
      else i
  }

  /** A lookup among the slots `lo <= i < lo + capacity`. */
  function Acquire(s: seq<TransitionState>, lo: nat, capacity: nat, r: Request): Acquired
    requires lo + capacity <= |s|
  {
    var hi := lo + capacity;
    if capacity == 0 || !r.Valid() then
      Acquired(s, NoSlot, Lookup(Pressure, 0, 0, 0))
    else
      var i := Find(s, lo, hi, r.network);
      if i < hi then AcquirePresent(s, i, r) else AcquireAbsent(s, lo, hi, r)
  }

  function AcquirePresent(s: seq<TransitionState>, i: nat, r: Request): Acquired
    requires i < |s|
  {
    var c := s[i];
    if r.sequence <= c.lastCallSequence then
      Acquired(s, NoSlot, Report(OutOfOrder, c))
    else if c.generation != r.generation || c.controlGeneration != r.controlGeneration then
      Acquired(s[i := ResetState(r)], Slot(i), Report(GenerationReset, c))
    else if Evictable(c, r) then
      Acquired(s[i := ResetState(r)], Slot(i), Report(StaleReset, c))
    else
      Acquired(s[i := Touched(c, r)], Slot(i), Lookup(Hit, 0, 0, 0))
  }

  function Touched(c: TransitionState, r: Request): TransitionState {
    c.(lastSeenCounter := if r.now > c.lastSeenCounter then r.now else c.lastSeenCounter,
       lastCallSequence := r.sequence)
  }

  function AcquireAbsent(s: seq<TransitionState>, lo: nat, hi: nat, r: Request): Acquired
    requires lo <= hi <= |s|
  {
    var empty := Find(s, lo, hi, 0);
    var oldest := Oldest(s, lo, hi, r);
    if empty < hi then
      Acquired(s[empty := ResetState(r)], Slot(empty), Report(Inserted, s[empty]))
    else if oldest < hi then
      Acquired(s[oldest := ResetState(r)], Slot(oldest), Report(Evicted, s[oldest]))
    else
      Acquired(s, NoSlot, Lookup(Pressure, 0, 0, 0))
  }

  // ---------- What every lookup keeps ----------

  /** No network occupies two slots. */
  ghost predicate Unique(s: seq<TransitionState>) {
    forall i, j :: 0 <= i < j < |s| && s[i].network != 0 ==> s[i].network != s[j].network
  }

  ghost predicate Holds(s: seq<TransitionState>, network: Pointer) {
    exists i :: 0 <= i < |s| && s[i].network == network
  }

  lemma AcquireKeepsUnique(s: seq<TransitionState>, r: Request)
    requires Unique(s)
    ensures Unique(Acquire(s, 0, |s|, r).states)
  {
    var i := Find(s, 0, |s|, r.network);
  }

  /** A lookup changes only the slot it returns, and nothing when it returns none.  The slot
      then carries the requested identity and sequence.  If it held another network, that
      network was stale and its blend was over, no slot was empty, and no other slot the
      lookup could have evicted was seen less recently. */
  lemma AcquireFrame(s: seq<TransitionState>, r: Request)
    ensures var a := Acquire(s, 0, |s|, r);
            && |a.states| == |s|
            && (a.slot.NoSlot? ==> a.states == s)
            && (a.slot.Slot? ==>
                  && a.slot.index < |s|
                  && a.states == s[a.slot.index := a.states[a.slot.index]]
                  && var was, got := s[a.slot.index], a.states[a.slot.index];
                     && got.network == r.network
                     && got.generation == r.generation
                     && got.controlGeneration == r.controlGeneration
                     && got.lastCallSequence == r.sequence
                     && (was.network == r.network ==> was.lastCallSequence < r.sequence)
                     && (was.network != r.network && was.network != 0 ==>
                           && IsStale(was, r.now, r.staleAfter)
                           && !IsActive(was, r.now)
                           && !Holds(s, 0)
                           && forall k :: 0 <= k < |s| && Evictable(s[k], r) ==>
                                was.lastSeenCounter <= s[k].lastSeenCounter))
  {
  }

  /** The state a lookup hands out: the network's own, unless it is absent, was rebuilt, or was
      stale and its blend over; then a zeroed one. */
  lemma AcquiredState(s: seq<TransitionState>, r: Request)
    requires r.Valid() && Acquire(s, 0, |s|, r).slot.Slot?
    ensures var a := Acquire(s, 0, |s|, r);
            var was, got := s[a.slot.index], a.states[a.slot.index];
            && (Holds(s, r.network) ==> was.network == r.network)
            && got == if && was.network == r.network
                         && was.generation == r.generation
                         && was.controlGeneration == r.controlGeneration
                         && !Evictable(was, r) then Touched(was, r) else ResetState(r)
  {
    var i := Find(s, 0, |s|, r.network);
  }

  /** The event that a lookup reports is what happened to the table, and the identity it reports is
      the one that was replaced. */
  lemma EventTellsWhatHappened(s: seq<TransitionState>, r: Request)
    requires r.Valid() && |s| > 0
    ensures var a := Acquire(s, 0, |s|, r);
            if a.slot.NoSlot? then
              if Holds(s, r.network) then a.lookup.event == OutOfOrder else a.lookup == Lookup(Pressure, 0, 0, 0)
            else
              var was := s[a.slot.index];
              var same := was.generation == r.generation && was.controlGeneration == r.controlGeneration;
              if was.network == r.network && same && !Evictable(was, r) then a.lookup == Lookup(Hit, 0, 0, 0)
              else
                a.lookup == Report(if was.network == 0 then Inserted
                                   else if was.network != r.network then Evicted
                                   else if same then StaleReset
                                   else GenerationReset, was)
  {
    var i := Find(s, 0, |s|, r.network);
    if i < |s| {
      assert Holds(s, r.network);
    }
  }

  /** Exactly when a lookup with valid arguments hands out no slot. */
  lemma AcquireFails(s: seq<TransitionState>, r: Request)
    requires r.Valid() && |s| > 0 && Unique(s)
    ensures Acquire(s, 0, |s|, r).slot.NoSlot? <==>
              || (exists i :: 0 <= i < |s| && s[i].network == r.network && r.sequence <= s[i].lastCallSequence)
              || (forall i :: 0 <= i < |s| ==>
                    && s[i].network != r.network
                    && s[i].network != 0
                    && (!IsStale(s[i], r.now, r.staleAfter) || IsActive(s[i], r.now)))
  {
    var i := Find(s, 0, |s|, r.network);
  }

  /** With at least as many slots as networks in use, only call order can refuse a lookup. */
  lemma EnoughSlots(s: seq<TransitionState>, networks: set<Pointer>, r: Request)
    requires r.Valid() && Unique(s) && |networks| <= |s| && r.network in networks
    requires forall i :: 0 <= i < |s| && s[i].network != 0 ==> s[i].network in networks
    requires forall i :: 0 <= i < |s| && s[i].network == r.network ==> s[i].lastCallSequence < r.sequence
    ensures Acquire(s, 0, |s|, r).slot.Slot?
  {
    if |s| > 0 && !Holds(s, 0) && !Holds(s, r.network) {
      CountNetworks(s);
      var used := set i | 0 <= i < |s| :: s[i].network;
      assert used <= networks - {r.network};
      SubsetSize(used, networks - {r.network});
    }
  }

  lemma {:induction false} CountNetworks(s: seq<TransitionState>)
    requires Unique(s) && !Holds(s, 0)
    ensures |set i | 0 <= i < |s| :: s[i].network| == |s|
  {
    if |s| > 0 {
      var t, last := s[..|s| - 1], s[|s| - 1].network;
      forall i | 0 <= i < |t| ensures t[i].network != 0 {
        assert s[i].network != 0;
      }
      CountNetworks(t);
      var before := set i | 0 <= i < |t| :: t[i].network;
      var all := set i | 0 <= i < |s| :: s[i].network;
      forall n | n in all ensures n in before + {last} {
        var i :| 0 <= i < |s| && s[i].network == n;
        if i < |t| { assert t[i].network == n; }
      }
      forall n | n in before ensures n in all && n != last {
        var i :| 0 <= i < |t| && t[i].network == n;
        assert s[i].network == n;
      }
      assert all == before + {last};
    }
  }

  lemma {:induction false} SubsetSize<T>(a: set<T>, b: set<T>)
    requires a <= b
    ensures |a| <= |b|
  {
    if a != {} {
      var x :| x in a;
      SubsetSize(a - {x}, b - {x});
    }
  }

  // ---------- The hint table ----------

  /** The hash bucket of a network. */
  function Bucket(network: Pointer, hintCount: nat): (b: nat)
    requires hintCount > 0
    ensures b < hintCount
  {
    var key := network as bv64;
    (((key >> 4) ^ (key >> 16)) as nat) % hintCount
  }

  /** A lookup that first looks at the slot a hint names. */
  function AcquireHint(s: seq<TransitionState>, hints: seq<nat>, r: Request): Acquired
    requires |hints| > 0
  {
    var index := hints[Bucket(r.network, |hints|)];
    if index < |s| && s[index].network == r.network && r.network != 0 then Acquire(s, index, 1, r)
    else Acquire(s, 0, |s|, r)
  }

  /** The hint table after such a lookup. */
  function UpdatedHints(s: seq<TransitionState>, hints: seq<nat>, r: Request): (h: seq<nat>)
    requires |hints| > 0
    ensures |h| == |hints|
  {
    var bucket := Bucket(r.network, |hints|);
    var index := hints[bucket];
    var a := AcquireHint(s, hints, r);
    if index < |s| && s[index].network == r.network && r.network != 0 then hints
    else if a.slot.Slot? then hints[bucket := a.slot.index]
    else hints
  }

  /** Whatever the hints say, the outcome is that of the full scan. */
  lemma HintRefinesScan(s: seq<TransitionState>, hints: seq<nat>, r: Request)
    requires |hints| > 0 && Unique(s)
    ensures AcquireHint(s, hints, r) == Acquire(s, 0, |s|, r)
  {
    var index := hints[Bucket(r.network, |hints|)];
    if index < |s| && s[index].network == r.network && r.network != 0 {
      var i := Find(s, 0, |s|, r.network);
      assert i == index;
      assert Find(s, index, index + 1, r.network) == index;
    }
  }

  // ---------- The lookups in place ----------

  /** The branch of the scan that found the network. */
  method AcquirePresentInPlace(states: array<TransitionState>, index: nat, r: Request)
    returns (slot: Slot, lookup: Lookup)
    requires index < states.Length
    modifies states
    ensures Acquired(states[..], slot, lookup) == AcquirePresent(old(states[..]), index, r)
  {
    var candidate := states[index];
    if r.sequence <= candidate.lastCallSequence {
      return NoSlot, Report(OutOfOrder, candidate);
    }
    var resetEvent;
    if candidate.generation != r.generation || candidate.controlGeneration != r.controlGeneration {
      resetEvent := GenerationReset;
    } else if IsStale(candidate, r.now, r.staleAfter) && !IsActive(candidate, r.now) {
      resetEvent := StaleReset;
    } else {
      if r.now > candidate.lastSeenCounter {
        states[index] := states[index].(lastSeenCounter := r.now);
      }
      states[index] := states[index].(lastCallSequence := r.sequence);
      return Slot(index), Lookup(Hit, 0, 0, 0);
    }
    states[index] := ResetState(r);
    return Slot(index), Report(resetEvent, candidate);
  }

  /** The scan itself: where the network is, and while it is not found, the first empty
      slot and the slot to evict; `hi` stands for none. */
  method Scan(states: array<TransitionState>, lo: nat, hi: nat, r: Request)
    returns (found: nat, empty: nat, oldest: nat)
    requires lo <= hi <= states.Length
    ensures found == Find(states[..], lo, hi, r.network)
    ensures found == hi ==> empty == Find(states[..], lo, hi, 0) && oldest == Oldest(states[..], lo, hi, r)
  {
    empty, oldest := hi, hi;
    ghost var s := states[..];
    for index := lo to hi
      invariant forall k :: lo <= k < index ==> s[k].network != r.network
      invariant empty == EmptyBefore(s, lo, index, hi)
      invariant oldest == OldestBefore(s, lo, index, hi, r)
    {
      hide EmptyBefore, OldestBefore, Oldest, IsStale, IsActive;
      var candidate := states[index];
      if candidate.network == r.network {
        FindIs(s, lo, hi, index, r.network);
        return index, empty, oldest;
      }
      EmptyStep(s, lo, index, hi);
      OldestStep(s, lo, index, hi, r);
      if candidate.network == 0 {
        if empty == hi {
          empty := index;
        }
      } else if Evictable(candidate, r) &&
                (oldest == hi || candidate.lastSeenCounter < states[oldest].lastSeenCounter) {
        oldest := index;
      }
    }
    found := hi;
  }

  /** The first empty slot of `s[lo..bound]`, with `hi` for none. */
  ghost function EmptyBefore(s: seq<TransitionState>, lo: nat, bound: nat, hi: nat): nat
    requires lo <= bound <= hi <= |s|
  {
    var i := Find(s, lo, bound, 0);
    if i < bound then i else hi
  }

  /** The slot of `s[lo..bound]` to evict, with `hi` for none. */
  ghost function OldestBefore(s: seq<TransitionState>, lo: nat, bound: nat, hi: nat, r: Request): (o: nat)
    requires lo <= bound <= hi <= |s|
    ensures o <= hi
  {
    var i := Oldest(s, lo, bound, r);
    if i < bound then i else hi
  }

  lemma EmptyStep(s: seq<TransitionState>, lo: nat, index: nat, hi: nat)
    requires lo <= index < hi <= |s|
    ensures EmptyBefore(s, lo, index + 1, hi) ==
            if s[index].network == 0 && EmptyBefore(s, lo, index, hi) == hi then index
            else EmptyBefore(s, lo, index, hi)
  {
    FindExtends(s, lo, index, 0);
  }

  lemma OldestStep(s: seq<TransitionState>, lo: nat, index: nat, hi: nat, r: Request)
    requires lo <= index < hi <= |s|
    ensures var oldest := OldestBefore(s, lo, index, hi, r);
            OldestBefore(s, lo, index + 1, hi, r) ==
            if s[index].network != 0 && Evictable(s[index], r) &&
               (oldest == hi || s[index].lastSeenCounter < s[oldest].lastSeenCounter) then index
            else oldest
  {
    hide Evictable;
  }

  /** The bounded scan over `states[lo..lo + capacity]`. */
  method AcquireInPlace(states: array<TransitionState>, lo: nat, capacity: nat, r: Request)
    returns (slot: Slot, lookup: Lookup)
    requires lo + capacity <= states.Length
    modifies states
    ensures Acquired(states[..], slot, lookup) == Acquire(old(states[..]), lo, capacity, r)
  {
    lookup := Lookup(Pressure, 0, 0, 0);
    if capacity == 0 || !r.Valid() {
      return NoSlot, lookup;
    }
    var hi := lo + capacity;
    var found, empty, oldest := Scan(states, lo, hi, r);
    if found != hi {
      slot, lookup := AcquirePresentInPlace(states, found, r);
      return;
    }
    var selected := if empty != hi then empty else oldest;
    if selected == hi {
      return NoSlot, lookup;
    }
    lookup := Report(if empty != hi then Inserted else Evicted, states[selected]);
    states[selected] := ResetState(r);
    slot := Slot(selected);
  }

  lemma FindIs(s: seq<TransitionState>, lo: nat, hi: nat, i: nat, network: Pointer)
    requires lo <= i < hi <= |s| && s[i].network == network
    requires forall k :: lo <= k < i ==> s[k].network != network
    ensures Find(s, lo, hi, network) == i
  {
    var found := Find(s, lo, hi, network);
    assert !(i < found);
  }

  lemma {:induction false} FindExtends(s: seq<TransitionState>, lo: nat, hi: nat, network: Pointer)
    requires lo <= hi < |s|
    ensures Find(s, lo, hi + 1, network) ==
            if Find(s, lo, hi, network) < hi then Find(s, lo, hi, network)
            else if s[hi].network == network then hi else hi + 1
    decreases hi - lo
  {
    if lo < hi && s[lo].network != network {
      FindExtends(s, lo + 1, hi, network);
    }
  }

  /** The hinted scan over all of `states`. */
  method AcquireHintInPlace(states: array<TransitionState>, hints: array<nat>, r: Request)
    returns (slot: Slot, lookup: Lookup)
    requires hints.Length > 0
    modifies states, hints
    ensures Acquired(states[..], slot, lookup) == AcquireHint(old(states[..]), old(hints[..]), r)
    ensures hints[..] == UpdatedHints(old(states[..]), old(hints[..]), r)
  {
    var bucket := Bucket(r.network, hints.Length);
    var index := hints[bucket];
    if index < states.Length && states[index].network == r.network && r.network != 0 {
      slot, lookup := AcquireInPlace(states, index, 1, r);
      return;
    }
    slot, lookup := AcquireInPlace(states, 0, states.Length, r);
    if slot.Slot? {
      hints[bucket] := slot.index;
    }
  }
}
