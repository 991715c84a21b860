/**
 Shift variants of the interface shortcuts (electron/services/interface-input-profile.ts:70-147).

 A profile is a table from actions to their triggers, each trigger trimmed. The Generic set is a list
 of actions; the other sets of the player are a map. How a trigger is normalized for comparison is a
 parameter of the whole module.
 */
module InputProfile {
  datatype Action = Action(name: string, triggers: seq<string>)

  type Id = (string, string)

  /** The profile of the player. */
  datatype Profile = Profile(generic: seq<Action>, others: map<Id, seq<string>>)

  type Managed = map<string, seq<string>>

  datatype Result = Result(profile: Profile, managed: Managed)

  const GENERIC: string := "Generic"
  const OPEN_MAP: string := "OpenMap"
  const TOGGLE_INVENTORY: string := "ToggleInventory"

  predicate IsManaged(name: string) { name == OPEN_MAP || name == TOGGLE_INVENTORY }

  // ---------- Triggers ----------

  function Lower(c: char): char { if 'A' <= c <= 'Z' then ((c as int) + 32) as char else c }

  predicate IsWordChar(c: char) {
    'A' <= c <= 'Z' || 'a' <= c <= 'z' || '0' <= c <= '9' || c == '_'
  }

  predicate StartsWithWord(t: string, word: string) {
    && |word| <= |t| && (forall i :: 0 <= i < |word| ==> Lower(t[i]) == word[i])
    && (|t| == |word| || t[|word|] == '_')
  }

  /** A plain key: no chord, no pad or stick, no modifier. */
  predicate IsEligible(t: string) {
    && t != "" && (forall i :: 0 <= i < |t| ==> IsWordChar(t[i]))
    && !StartsWithWord(t, "gamepad") && !StartsWithWord(t, "joystick")
    && !StartsWithWord(t, "shift") && !StartsWithWord(t, "control") && !StartsWithWord(t, "alt")
  }

  function Alias(t: string): string { "Shift+" + t }

  /** The normalized form of some triggers. */
  function Keys(norm: string -> string, triggers: seq<string>): set<string> {
    set t | t in triggers :: norm(t)
  }

  // ---------- The table of the player ----------

  predicate HasAction(generic: seq<Action>, name: string) {
    exists i :: 0 <= i < |generic| && generic[i].name == name
  }

  /** An action that the player left out is inherited from the defaults. */
  function InheritedOne(generic: seq<Action>, defaults: map<Id, seq<string>>, name: string): seq<Action> {
    if !HasAction(generic, name) && (GENERIC, name) in defaults
    then generic + [Action(name, defaults[(GENERIC, name)])]
    else generic
  }

  function Inherited(generic: seq<Action>, defaults: map<Id, seq<string>>): seq<Action> {
    InheritedOne(InheritedOne(generic, defaults, OPEN_MAP), defaults, TOGGLE_INVENTORY)
  }

  function Owned(managed: Managed, name: string): seq<string> {
    if name in managed then managed[name] else []
  }

  function Without(triggers: seq<string>, owned: seq<string>): seq<string> {
    if triggers == [] then []
    else
      var t := triggers[|triggers| - 1];
      Without(triggers[..|triggers| - 1], owned) + if t in owned then [] else [t]
  }

  function CleanedOne(a: Action, previous: Managed): Action {
    if IsManaged(a.name) then a.(triggers := Without(a.triggers, Owned(previous, a.name))) else a
  }

  /** The table without the aliases that were added before. */
  function Cleaned(generic: seq<Action>, previous: Managed): (r: seq<Action>)
    ensures |r| == |generic| && forall i :: 0 <= i < |r| ==> r[i] == CleanedOne(generic[i], previous)
  {
    if generic == [] then []
    else Cleaned(generic[..|generic| - 1], previous) + [CleanedOne(generic[|generic| - 1], previous)]
  }

  function Table(generic: seq<Action>): map<Id, seq<string>> {
    if generic == [] then map[]
    else
      var a := generic[|generic| - 1];
      Table(generic[..|generic| - 1])[(GENERIC, a.name) := a.triggers]
  }

  /** The bindings in effect: the defaults, as far as the player does not override them. */
  function Effective(defaults: map<Id, seq<string>>, p: Profile): map<Id, seq<string>> {
    defaults + p.others + Table(p.generic)
  }

  function Occupied(norm: string -> string, bindings: map<Id, seq<string>>): set<string> {
    set id, t | id in bindings && t in bindings[id] :: norm(t)
  }

  // ---------- The aliases ----------

  /** The aliases for some triggers that collide with nothing occupied and with no other alias. */
  function Aliases(norm: string -> string, triggers: seq<string>, occupied: set<string>): seq<string> {
    if triggers == [] then []
    else
      var t := triggers[|triggers| - 1];
      var added := Aliases(norm, triggers[..|triggers| - 1], occupied);
      if IsEligible(t) && norm(Alias(t)) !in occupied + Keys(norm, added) then added + [Alias(t)] else added
  }

  function AliasesOf(norm: string -> string, a: Action, occupied: set<string>): seq<string> {
    if IsManaged(a.name) then Aliases(norm, a.triggers, occupied) else []
  }

  /** The aliases of every action; the last action chooses first. */
  function Assigned(norm: string -> string, generic: seq<Action>, occupied: set<string>): (r: seq<seq<string>>)
    ensures |r| == |generic|
  {
    if generic == [] then []
    else
      var added := AliasesOf(norm, generic[|generic| - 1], occupied);
      Assigned(norm, generic[..|generic| - 1], occupied + Keys(norm, added)) + [added]
  }

  function Extended(generic: seq<Action>, added: seq<seq<string>>): (r: seq<Action>)
    requires |added| == |generic|
    ensures |r| == |generic|
    ensures forall i :: 0 <= i < |r| ==> r[i] == Action(generic[i].name, generic[i].triggers + added[i])
  {
    seq(|generic|, i requires 0 <= i < |generic| => Action(generic[i].name, generic[i].triggers + added[i]))
  }

  function ManagedOf(generic: seq<Action>, added: seq<seq<string>>): Managed
    requires |added| == |generic|
  {
    if generic == [] then map[]
    else
      var rest := ManagedOf(generic[1..], added[1..]);
      if added[0] == [] then rest else rest[generic[0].name := added[0]]
  }

  /** The table of the player with inherited actions and without aliases. */
  function Own(p: Profile, defaults: map<Id, seq<string>>, previous: Managed): Profile {
    p.(generic := Cleaned(Inherited(p.generic, defaults), previous))
  }

  function AddedTo(norm: string -> string, own: Profile, defaults: map<Id, seq<string>>): (r: seq<seq<string>>)
    ensures |r| == |own.generic|
  {
    Assigned(norm, own.generic, Occupied(norm, Effective(defaults, own)))
  }

  function Synchronized(norm: string -> string, p: Profile, defaults: map<Id, seq<string>>, previous: Managed): Result {
    var own := Own(p, defaults, previous);
    var added := AddedTo(norm, own, defaults);
    Result(own.(generic := Extended(own.generic, added)), ManagedOf(own.generic, added))
  }

  // ---------- What is added ----------

  /** No action is listed twice. */
  ghost predicate Unique(generic: seq<Action>) {
    forall i, j :: 0 <= i < j < |generic| ==> generic[i].name != generic[j].name
  }

  /** Every alias is for one of the triggers, and is free, and no two have the same form. */
  lemma {:induction false} AliasesAreFree(norm: string -> string, triggers: seq<string>, occupied: set<string>)
    ensures var added := Aliases(norm, triggers, occupied);
            && (forall a :: a in added ==>
                  norm(a) !in occupied && exists t :: t in triggers && IsEligible(t) && a == Alias(t))
            && forall i, j :: 0 <= i < j < |added| ==> norm(added[i]) != norm(added[j])
  {
    hide IsEligible;
    if triggers != [] {
      var init, t := triggers[..|triggers| - 1], triggers[|triggers| - 1];
      AliasesAreFree(norm, init, occupied);
      var before := Aliases(norm, init, occupied);
      assert t in triggers;
      forall i | 0 <= i < |before| ensures norm(before[i]) in Keys(norm, before) {
        assert before[i] in before;
      }
    }
  }

  /** Alias `a` is for an eligible trigger of action `x`, and its form is free. */
  ghost predicate IsAliasFor(norm: string -> string, x: Action, occupied: set<string>, a: string) {
    IsManaged(x.name) && norm(a) !in occupied && exists t :: t in x.triggers && IsEligible(t) && a == Alias(t)
  }

  ghost predicate KeysApart(norm: string -> string, a: seq<string>, b: seq<string>) {
    Keys(norm, a) !! Keys(norm, b)
  }

  /** What every action gets is free, and no two actions get the same form. */
  lemma {:induction false} AssignedAreFree(norm: string -> string, generic: seq<Action>, occupied: set<string>)
    ensures var added := Assigned(norm, generic, occupied);
            && (forall i, a :: 0 <= i < |generic| && a in added[i] ==> IsAliasFor(norm, generic[i], occupied, a))
            && (forall i, j :: 0 <= i < j < |generic| ==> KeysApart(norm, added[i], added[j]))
  {
    hide Aliases, IsEligible, Alias;
    if generic != [] {
      var n := |generic| - 1;
      var x := generic[n];
      var own := AliasesOf(norm, x, occupied);
      AliasesAreFree(norm, x.triggers, occupied);
      AssignedAreFree(norm, generic[..n], occupied + Keys(norm, own));
      var before := Assigned(norm, generic[..n], occupied + Keys(norm, own));
      forall i, a | 0 <= i < n && a in before[i] ensures IsAliasFor(norm, generic[i], occupied, a) {
        assert IsAliasFor(norm, generic[..n][i], occupied + Keys(norm, own), a);
      }
      assert Assigned(norm, generic, occupied) == before + [own];
      forall i, j | 0 <= i < j < n ensures KeysApart(norm, before[i], before[j]) {
        assert KeysApart(norm, Assigned(norm, generic[..n], occupied + Keys(norm, own))[i],
                         Assigned(norm, generic[..n], occupied + Keys(norm, own))[j]);
      }
      forall i | 0 <= i < n ensures KeysApart(norm, before[i], own) {
        forall a | a in before[i] ensures norm(a) !in Keys(norm, own) {
          assert IsAliasFor(norm, generic[..n][i], occupied + Keys(norm, own), a);
        }
      }
    }
  }

  // ---------- Unique names ----------

  lemma {:induction false} TableHolds(generic: seq<Action>, i: nat)
    requires Unique(generic) && i < |generic|
    ensures (GENERIC, generic[i].name) in Table(generic)
    ensures Table(generic)[(GENERIC, generic[i].name)] == generic[i].triggers
  {
    var n := |generic| - 1;
    if i < n {
      TableHolds(generic[..n], i);
    }
  }

  lemma {:induction false} TableHasOnly(generic: seq<Action>, id: Id)
    requires id in Table(generic)
    ensures exists i :: 0 <= i < |generic| && id == (GENERIC, generic[i].name)
  {
    var n := |generic| - 1;
    if id != (GENERIC, generic[n].name) {
      TableHasOnly(generic[..n], id);
    }
  }

  lemma {:induction false} ManagedHolds(generic: seq<Action>, added: seq<seq<string>>, i: nat)
    requires Unique(generic) && |added| == |generic| && i < |generic|
    ensures Owned(ManagedOf(generic, added), generic[i].name) == added[i]
  {
    if i > 0 {
      ManagedHolds(generic[1..], added[1..], i - 1);
    } else {
      NotManaged(generic[1..], added[1..], generic[0].name);
    }
  }

  lemma {:induction false} NotManaged(generic: seq<Action>, added: seq<seq<string>>, name: string)
    requires |added| == |generic| && forall i :: 0 <= i < |generic| ==> generic[i].name != name
    ensures name !in ManagedOf(generic, added)
  {
    if generic != [] {
      NotManaged(generic[1..], added[1..], name);
    }
  }

  lemma InheritedIsUnique(generic: seq<Action>, defaults: map<Id, seq<string>>)
    requires Unique(generic)
    ensures Unique(Inherited(generic, defaults))
  {
  }

  /** A managed action is there, or there is nothing to inherit it from. */
  ghost predicate IsComplete(generic: seq<Action>, defaults: map<Id, seq<string>>) {
    forall name :: IsManaged(name) ==> HasAction(generic, name) || (GENERIC, name) !in defaults
  }

  lemma InheritedIsComplete(generic: seq<Action>, defaults: map<Id, seq<string>>)
    ensures IsComplete(Inherited(generic, defaults), defaults)
  {
    var once := InheritedOne(generic, defaults, OPEN_MAP);
    InheritedOneHas(generic, defaults, OPEN_MAP, OPEN_MAP);
    InheritedOneHas(once, defaults, TOGGLE_INVENTORY, OPEN_MAP);
    InheritedOneHas(once, defaults, TOGGLE_INVENTORY, TOGGLE_INVENTORY);
  }

  lemma InheritedOneHas(generic: seq<Action>, defaults: map<Id, seq<string>>, name: string, other: string)
    ensures HasAction(generic, other) ==> HasAction(InheritedOne(generic, defaults, name), other)
    ensures (GENERIC, name) in defaults ==> HasAction(InheritedOne(generic, defaults, name), name)
  {
    var r := InheritedOne(generic, defaults, name);
    assert forall i :: 0 <= i < |generic| ==> r[i] == generic[i];
    if r != generic {
      assert r[|generic|].name == name;
    }
  }

  lemma SameNames(a: seq<Action>, b: seq<Action>, name: string)
    requires |a| == |b| && forall i :: 0 <= i < |a| ==> a[i].name == b[i].name
    ensures HasAction(a, name) <==> HasAction(b, name)
  {
    if HasAction(a, name) {
      var i :| 0 <= i < |a| && a[i].name == name;
      assert b[i].name == name;
    }
  }

  // ---------- Taking the aliases away ----------

  lemma {:induction false} WithoutJoins(a: seq<string>, b: seq<string>, owned: seq<string>)
    ensures Without(a + b, owned) == Without(a, owned) + Without(b, owned)
  {
    if b == [] {
      assert a + b == a;
    } else {
      WithoutJoins(a, b[..|b| - 1], owned);
      assert (a + b)[..|a + b| - 1] == a + b[..|b| - 1];
    }
  }

  lemma {:induction false} WithoutNone(a: seq<string>, owned: seq<string>)
    requires forall i :: 0 <= i < |a| ==> a[i] !in owned
    ensures Without(a, owned) == a
  {
    if a != [] {
      WithoutNone(a[..|a| - 1], owned);
    }
  }

  lemma {:induction false} WithoutAll(a: seq<string>, owned: seq<string>)
    requires forall i :: 0 <= i < |a| ==> a[i] in owned
    ensures Without(a, owned) == []
  {
    if a != [] {
      WithoutAll(a[..|a| - 1], owned);
    }
  }

  lemma {:induction false} WithoutHas(a: seq<string>, owned: seq<string>, t: string)
    ensures t in Without(a, owned) <==> t in a && t !in owned
  {
    if a != [] {
      WithoutHas(a[..|a| - 1], owned, t);
      assert a == a[..|a| - 1] + [a[|a| - 1]];
    }
  }

  lemma WithoutAdded(own: seq<string>, added: seq<string>)
    requires forall t :: t in own ==> t !in added
    ensures Without(own + added, added) == own
  {
    WithoutJoins(own, added, added);
    WithoutNone(own, added);
    WithoutAll(added, added);
  }

  /** The triggers of the player are in effect. */
  lemma OwnIsOccupied(norm: string -> string, own: Profile, defaults: map<Id, seq<string>>, i: nat, t: string)
    requires Unique(own.generic) && i < |own.generic| && t in own.generic[i].triggers
    ensures norm(t) in Occupied(norm, Effective(defaults, own))
  {
    TableHolds(own.generic, i);
    var id := (GENERIC, own.generic[i].name);
    assert id in Effective(defaults, own) && t in Effective(defaults, own)[id];
  }

  lemma AddedIsFree(norm: string -> string, own: Profile, defaults: map<Id, seq<string>>, i: nat)
    requires i < |own.generic|
    ensures forall a :: a in AddedTo(norm, own, defaults)[i] ==>
              norm(a) !in Occupied(norm, Effective(defaults, own)) && IsManaged(own.generic[i].name)
  {
    var occupied := Occupied(norm, Effective(defaults, own));
    AssignedAreFree(norm, own.generic, occupied);
    forall a | a in AddedTo(norm, own, defaults)[i] ensures IsAliasFor(norm, own.generic[i], occupied, a) {
    }
  }

  lemma AliasIsNotOwn(norm: string -> string, own: Profile, defaults: map<Id, seq<string>>, i: nat, t: string)
    requires Unique(own.generic) && i < |own.generic| && t in own.generic[i].triggers
    ensures t !in AddedTo(norm, own, defaults)[i]
  {
    OwnIsOccupied(norm, own, defaults, i, t);
    AddedIsFree(norm, own, defaults, i);
  }

  /** Taking away what was added gives the table of the player back. */
  lemma CleaningUndoes(norm: string -> string, own: Profile, defaults: map<Id, seq<string>>)
    requires Unique(own.generic)
    ensures var added := AddedTo(norm, own, defaults);
            Cleaned(Extended(own.generic, added), ManagedOf(own.generic, added)) == own.generic
  {
    var added := AddedTo(norm, own, defaults);
    var extended, managed := Extended(own.generic, added), ManagedOf(own.generic, added);
    forall i | 0 <= i < |own.generic| ensures CleanedOne(extended[i], managed) == own.generic[i] {
      ManagedHolds(own.generic, added, i);
      forall t | t in own.generic[i].triggers ensures t !in added[i] {
        AliasIsNotOwn(norm, own, defaults, i, t);
      }
      WithoutAdded(own.generic[i].triggers, added[i]);
      if !IsManaged(own.generic[i].name) {
        NothingAdded(norm, own, defaults, i);
      }
    }
  }

  lemma NothingAdded(norm: string -> string, own: Profile, defaults: map<Id, seq<string>>, i: nat)
    requires i < |own.generic| && !IsManaged(own.generic[i].name)
    ensures AddedTo(norm, own, defaults)[i] == []
  {
    OthersGetNothing(norm, own.generic, Occupied(norm, Effective(defaults, own)), i);
  }

  lemma {:induction false} OthersGetNothing(norm: string -> string, generic: seq<Action>, occupied: set<string>, i: nat)
    requires i < |generic| && !IsManaged(generic[i].name)
    ensures Assigned(norm, generic, occupied)[i] == []
  {
    var n := |generic| - 1;
    if i < n {
      OthersGetNothing(norm, generic[..n], occupied + Keys(norm, AliasesOf(norm, generic[n], occupied)), i);
    }
  }

  // ---------- The main results ----------

  /** The profile that is written is a fixed point: with the ownership returned, the next run gives
      the same triggers and the same ownership. */
  lemma SynchronizationIsAFixedPoint(norm: string -> string, p: Profile, defaults: map<Id, seq<string>>,
                                     previous: Managed)
    requires Unique(p.generic)
    ensures var r := Synchronized(norm, p, defaults, previous);
            Synchronized(norm, r.profile, defaults, r.managed) == r
  {
    var r, own := Synchronized(norm, p, defaults, previous), Own(p, defaults, previous);
    OwnIsUnique(p, defaults, previous);
    ResultIsComplete(norm, p, defaults, previous);
    CleaningUndoes(norm, own, defaults);
    assert Own(r.profile, defaults, r.managed) == own;
  }

  lemma OwnIsUnique(p: Profile, defaults: map<Id, seq<string>>, previous: Managed)
    requires Unique(p.generic)
    ensures Unique(Own(p, defaults, previous).generic)
  {
    InheritedIsUnique(p.generic, defaults);
  }

  /** The written profile has nothing left to inherit. */
  lemma ResultIsComplete(norm: string -> string, p: Profile, defaults: map<Id, seq<string>>, previous: Managed)
    ensures var r := Synchronized(norm, p, defaults, previous);
            Inherited(r.profile.generic, defaults) == r.profile.generic
  {
    hide Synchronized, Inherited, HasAction;
    var r := Synchronized(norm, p, defaults, previous).profile.generic;
    var inherited := Inherited(p.generic, defaults);
    InheritedIsComplete(p.generic, defaults);
    ResultKeepsNames(norm, p, defaults, previous);
    SameNames(inherited, r, OPEN_MAP);
    SameNames(inherited, r, TOGGLE_INVENTORY);
    NothingToInherit(r, defaults);
  }

  lemma ResultKeepsNames(norm: string -> string, p: Profile, defaults: map<Id, seq<string>>, previous: Managed)
    ensures var a, b := Inherited(p.generic, defaults), Synchronized(norm, p, defaults, previous).profile.generic;
            |a| == |b| && forall i :: 0 <= i < |a| ==> a[i].name == b[i].name
  {
    hide Inherited;
  }

  lemma NothingToInherit(generic: seq<Action>, defaults: map<Id, seq<string>>)
    requires HasAction(generic, OPEN_MAP) || (GENERIC, OPEN_MAP) !in defaults
    requires HasAction(generic, TOGGLE_INVENTORY) || (GENERIC, TOGGLE_INVENTORY) !in defaults
    ensures Inherited(generic, defaults) == generic
  {
  }

  /** Removing the aliases that a run reports gives back the player's own triggers, and the rest of
      the profile never changes. On a first run these are exactly the triggers it was given. */
  lemma SynchronizationIsReversible(norm: string -> string, p: Profile, defaults: map<Id, seq<string>>,
                                    previous: Managed)
    requires Unique(p.generic)
    ensures var r := Synchronized(norm, p, defaults, previous);
            && r.profile.others == p.others
            && Cleaned(r.profile.generic, r.managed) == Cleaned(Inherited(p.generic, defaults), previous)
            && (previous == map[] ==> Cleaned(r.profile.generic, r.managed) == Inherited(p.generic, defaults))
  {
    OwnIsUnique(p, defaults, previous);
    CleaningUndoes(norm, Own(p, defaults, previous), defaults);
    if previous == map[] {
      var inherited := Inherited(p.generic, defaults);
      forall i | 0 <= i < |inherited| ensures CleanedOne(inherited[i], previous) == inherited[i] {
        WithoutNone(inherited[i].triggers, []);
      }
      assert Cleaned(inherited, previous) == inherited;
    }
  }

  /** Which triggers an action ends up with: its own, and aliases of its own eligible ones. */
  lemma WhatAnActionGets(norm: string -> string, p: Profile, defaults: map<Id, seq<string>>, previous: Managed, i: nat,
                         a: string)
    requires i < |Own(p, defaults, previous).generic|
    requires a in Synchronized(norm, p, defaults, previous).profile.generic[i].triggers
    ensures var own := Own(p, defaults, previous);
            a in own.generic[i].triggers ||
            IsAliasFor(norm, own.generic[i], Occupied(norm, Effective(defaults, own)), a)
  {
    var own := Own(p, defaults, previous);
    AssignedAreFree(norm, own.generic, Occupied(norm, Effective(defaults, own)));
  }

  /** A key that the player unbinds from a managed action loses its alias, too. */
  lemma RemappedKeyLosesItsAlias(norm: string -> string, p: Profile, defaults: map<Id, seq<string>>,
                                 previous: Managed, i: nat, t: string)
    requires var inherited := Inherited(p.generic, defaults);
             && i < |inherited| && IsManaged(inherited[i].name)
             && t !in inherited[i].triggers && Alias(t) in Owned(previous, inherited[i].name)
    ensures Alias(t) !in Synchronized(norm, p, defaults, previous).profile.generic[i].triggers
  {
    var inherited, own := Inherited(p.generic, defaults), Own(p, defaults, previous);
    WithoutHas(inherited[i].triggers, Owned(previous, inherited[i].name), Alias(t));
    if Alias(t) in Synchronized(norm, p, defaults, previous).profile.generic[i].triggers {
      WhatAnActionGets(norm, p, defaults, previous, i, Alias(t));
      var u :| u in own.generic[i].triggers && Alias(t) == Alias(u);
      AliasIsInjective(t, u);
      WithoutHas(inherited[i].triggers, Owned(previous, inherited[i].name), t);
      assert false;
    }
  }

  lemma AliasIsInjective(t: string, u: string)
    requires Alias(t) == Alias(u)
    ensures t == u
  {
    assert Alias(t)[6..] == t && Alias(u)[6..] == u;
  }

  /** Two aliases, or an alias and a trigger of the player, have the same form only if they are the
      same alias of the same action. */
  lemma SameFormSameAlias(norm: string -> string, own: Profile, defaults: map<Id, seq<string>>, i: nat, a: string,
                          j: nat, u: string)
    requires Unique(own.generic) && i < |own.generic| && j < |own.generic|
    requires a in AddedTo(norm, own, defaults)[i] && norm(a) == norm(u)
    requires u in own.generic[j].triggers + AddedTo(norm, own, defaults)[j]
    ensures i == j && u == a
  {
    var occupied := Occupied(norm, Effective(defaults, own));
    var added := Assigned(norm, own.generic, occupied);
    AddedIsFree(norm, own, defaults, i);
    assert u in added[j] by {
      if u in own.generic[j].triggers {
        OwnIsOccupied(norm, own, defaults, j, u);
      }
    }
    SharedForm(norm, own.generic, occupied, i, j, norm(a));
    NoTwins(norm, own.generic, occupied, i, a, u);
  }

  lemma SharedForm(norm: string -> string, generic: seq<Action>, occupied: set<string>, i: nat, j: nat, key: string)
    requires i < |generic| && j < |generic|
    requires key in Keys(norm, Assigned(norm, generic, occupied)[i])
    requires key in Keys(norm, Assigned(norm, generic, occupied)[j])
    ensures i == j
  {
    if i != j {
      AssignedApart(norm, generic, occupied, if i < j then i else j, if i < j then j else i);
    }
  }

  lemma AssignedApart(norm: string -> string, generic: seq<Action>, occupied: set<string>, i: nat, j: nat)
    requires i < j < |generic|
    ensures Keys(norm, Assigned(norm, generic, occupied)[i]) !! Keys(norm, Assigned(norm, generic, occupied)[j])
  {
    AssignedAreFree(norm, generic, occupied);
    assert KeysApart(norm, Assigned(norm, generic, occupied)[i], Assigned(norm, generic, occupied)[j]);
  }

  lemma {:induction false} NoTwins(norm: string -> string, generic: seq<Action>, occupied: set<string>, i: nat,
                                   a: string, b: string)
    requires i < |generic| && norm(a) == norm(b)
    requires a in Assigned(norm, generic, occupied)[i] && b in Assigned(norm, generic, occupied)[i]
    ensures a == b
  {
    var n := |generic| - 1;
    var added := AliasesOf(norm, generic[n], occupied);
    if i < n {
      NoTwins(norm, generic[..n], occupied + Keys(norm, added), i, a, b);
    } else {
      AliasesAreFree(norm, generic[n].triggers, occupied);
      var x :| 0 <= x < |added| && added[x] == a;
      var y :| 0 <= y < |added| && added[y] == b;
    }
  }

  /** No alias collides with a binding in effect, nor with another alias: in the written profile its
      form belongs to that one trigger of that one action. */
  lemma AliasesCollideWithNothing(norm: string -> string, p: Profile, defaults: map<Id, seq<string>>,
                                  previous: Managed, i: nat, a: string, id: Id, u: string)
    requires Unique(p.generic) && i < |Own(p, defaults, previous).generic|
    requires a in AddedTo(norm, Own(p, defaults, previous), defaults)[i]
    requires var bindings := Effective(defaults, Synchronized(norm, p, defaults, previous).profile);
             id in bindings && u in bindings[id] && norm(u) == norm(a)
    ensures id == (GENERIC, Own(p, defaults, previous).generic[i].name) && u == a
  {
    OwnIsUnique(p, defaults, previous);
    BindingOfAlias(norm, Own(p, defaults, previous), Synchronized(norm, p, defaults, previous).profile, defaults, i,
                   a, id, u);
  }

  lemma BindingOfAlias(norm: string -> string, own: Profile, final: Profile, defaults: map<Id, seq<string>>,
                       i: nat, a: string, id: Id, u: string)
    requires Unique(own.generic) && i < |own.generic| && a in AddedTo(norm, own, defaults)[i]
    requires final == own.(generic := Extended(own.generic, AddedTo(norm, own, defaults)))
    requires id in Effective(defaults, final) && u in Effective(defaults, final)[id] && norm(u) == norm(a)
    ensures id == (GENERIC, own.generic[i].name) && u == a
  {
    hide AddedTo, Table;
    if id in Table(final.generic) {
      TableHasOnly(final.generic, id);
      var j :| 0 <= j < |final.generic| && id == (GENERIC, final.generic[j].name);
      TableHolds(final.generic, j);
      SameFormSameAlias(norm, own, defaults, i, a, j, u);
    } else {
      OtherBindingStays(own, final, defaults, id);
      AddedIsFree(norm, own, defaults, i);
      assert false;
    }
  }

  lemma OtherBindingStays(own: Profile, final: Profile, defaults: map<Id, seq<string>>, id: Id)
    requires own.others == final.others && |own.generic| == |final.generic| && Unique(final.generic)
    requires forall i :: 0 <= i < |own.generic| ==> own.generic[i].name == final.generic[i].name
    requires id in Effective(defaults, final) && id !in Table(final.generic)
    ensures id in Effective(defaults, own) && Effective(defaults, own)[id] == Effective(defaults, final)[id]
  {
    if id in Table(own.generic) {
      TableHasOnly(own.generic, id);
      var j :| 0 <= j < |own.generic| && id == (GENERIC, own.generic[j].name);
      TableHolds(final.generic, j);
    }
  }

  // ---------- Nothing is forgotten ----------

  /** The form of an eligible trigger's alias is taken, by what was there or by an alias. */
  lemma {:induction false} AliasesCover(norm: string -> string, triggers: seq<string>, occupied: set<string>, t: string)
    requires t in triggers && IsEligible(t)
    ensures norm(Alias(t)) in occupied + Keys(norm, Aliases(norm, triggers, occupied))
  {
    hide IsEligible, Alias;
    var init, last := triggers[..|triggers| - 1], triggers[|triggers| - 1];
    var before, after := Aliases(norm, init, occupied), Aliases(norm, triggers, occupied);
    if t in init {
      AliasesCover(norm, init, occupied, t);
      KeysOfMore(norm, before, Alias(last));
    } else {
      assert triggers == init + [last];
      assert t == last;
      KeysOfMore(norm, before, Alias(t));
    }
  }

  /** Some action got an alias of this form. */
  ghost predicate IsAssigned(norm: string -> string, added: seq<seq<string>>, key: string) {
    exists j :: 0 <= j < |added| && key in Keys(norm, added[j])
  }

  lemma {:induction false} AssignedCover(norm: string -> string, generic: seq<Action>, occupied: set<string>, i: nat,
                                         t: string)
    requires i < |generic| && IsManaged(generic[i].name) && t in generic[i].triggers && IsEligible(t)
    ensures norm(Alias(t)) in occupied || IsAssigned(norm, Assigned(norm, generic, occupied), norm(Alias(t)))
  {
    hide IsEligible, Alias, Aliases;
    var n, key := |generic| - 1, norm(Alias(t));
    var own := AliasesOf(norm, generic[n], occupied);
    var before, after := Assigned(norm, generic[..n], occupied + Keys(norm, own)), Assigned(norm, generic, occupied);
    assert after == before + [own];
    assert key in occupied || key in Keys(norm, own) || IsAssigned(norm, before, key) by {
      if i == n {
        AliasesCover(norm, generic[n].triggers, occupied, t);
      } else {
        AssignedCover(norm, generic[..n], occupied + Keys(norm, own), i, t);
      }
    }
    if key in Keys(norm, own) {
      assert after[n] == own;
    } else if IsAssigned(norm, before, key) {
      var j :| 0 <= j < |before| && key in Keys(norm, before[j]);
      assert after[j] == before[j];
    }
  }

  /** Whatever is bound without the aliases stays bound with them. */
  lemma StaysOccupied(norm: string -> string, own: Profile, final: Profile, defaults: map<Id, seq<string>>, key: string)
    requires Unique(own.generic) && Unique(final.generic) && own.others == final.others
    requires |own.generic| == |final.generic|
    requires forall i :: 0 <= i < |own.generic| ==>
               own.generic[i].name == final.generic[i].name && own.generic[i].triggers <= final.generic[i].triggers
    requires key in Occupied(norm, Effective(defaults, own))
    ensures key in Occupied(norm, Effective(defaults, final))
  {
    var id, u :| id in Effective(defaults, own) && u in Effective(defaults, own)[id] && norm(u) == key;
    if id in Table(own.generic) {
      TableHasOnly(own.generic, id);
      var j :| 0 <= j < |own.generic| && id == (GENERIC, own.generic[j].name);
      TableHolds(own.generic, j);
      assert u in final.generic[j].triggers;
      OwnIsOccupied(norm, final, defaults, j, u);
    } else {
      OtherBindingStays(final, own, defaults, id);
    }
  }

  /** After a run the Shift form of every eligible trigger of a managed action is bound: the alias was
      added, unless something else had its form already. */
  lemma EligibleTriggersAreCovered(norm: string -> string, p: Profile, defaults: map<Id, seq<string>>,
                                   previous: Managed,
                                   i: nat, t: string)
    requires Unique(p.generic) && i < |Own(p, defaults, previous).generic|
    requires var action := Own(p, defaults, previous).generic[i];
             IsManaged(action.name) && t in action.triggers && IsEligible(t)
    ensures norm(Alias(t)) in Occupied(norm, Effective(defaults, Synchronized(norm, p, defaults, previous).profile))
  {
    hide IsEligible, Alias;
    OwnIsUnique(p, defaults, previous);
    CoveredIn(norm, Own(p, defaults, previous), Synchronized(norm, p, defaults, previous).profile, defaults, i, t);
  }

  lemma CoveredIn(norm: string -> string, own: Profile, final: Profile, defaults: map<Id, seq<string>>, i: nat,
                  t: string)
    requires Unique(own.generic) && i < |own.generic|
    requires final == own.(generic := Extended(own.generic, AddedTo(norm, own, defaults)))
    requires IsManaged(own.generic[i].name) && t in own.generic[i].triggers && IsEligible(t)
    ensures norm(Alias(t)) in Occupied(norm, Effective(defaults, final))
  {
    hide IsEligible, Alias, Effective;
    var occupied, added := Occupied(norm, Effective(defaults, own)), AddedTo(norm, own, defaults);
    AssignedCover(norm, own.generic, occupied, i, t);
    hide Occupied, AddedTo;
    if norm(Alias(t)) in occupied {
      StaysOccupied(norm, own, final, defaults, norm(Alias(t)));
    } else {
      var j :| 0 <= j < |added| && norm(Alias(t)) in Keys(norm, added[j]);
      var a :| a in added[j] && norm(a) == norm(Alias(t));
      assert a in final.generic[j].triggers;
      OwnIsOccupied(norm, final, defaults, j, a);
    }
  }

  // ---------- The loops ----------

  method RemoveOwned(triggers: seq<string>, owned: seq<string>) returns (cleaned: seq<string>)
    ensures cleaned == Without(triggers, owned)
  {
    cleaned := triggers;
    var k: nat := |triggers|;
    assert triggers[k..] == [];
    while k > 0
      invariant k <= |triggers|
      invariant cleaned == triggers[..k] + Without(triggers[k..], owned)
    {
      k := k - 1;
      WithoutJoins([triggers[k]], triggers[k + 1..], owned);
      assert triggers[k..] == [triggers[k]] + triggers[k + 1..];
      assert Without([triggers[k]], owned) == if triggers[k] in owned then [] else [triggers[k]] by {
        assert [triggers[k]][..0] == [];
      }
      if triggers[k] in owned {
        cleaned := cleaned[..k] + cleaned[k + 1..];
      }
    }
  }

  method RemovePrevious(generic: seq<Action>, previous: Managed) returns (body: seq<Action>)
    ensures body == Cleaned(generic, previous)
  {
    body := generic;
    var i: nat := |generic|;
    while i > 0
      invariant i <= |generic| == |body|
      invariant body[..i] == generic[..i]
      invariant forall j :: i <= j < |body| ==> body[j] == CleanedOne(generic[j], previous)
    {
      i := i - 1;
      if IsManaged(body[i].name) {
        var cleaned := RemoveOwned(body[i].triggers, Owned(previous, body[i].name));
        body := body[i := Action(body[i].name, cleaned)];
      }
    }
  }

  method AddAliases(norm: string -> string, triggers: seq<string>, taken: set<string>)
    returns (added: seq<string>, occupied: set<string>)
    ensures added == Aliases(norm, triggers, taken) && occupied == taken + Keys(norm, added)
  {
    added, occupied := [], taken;
    for k := 0 to |triggers|
      invariant added == Aliases(norm, triggers[..k], taken) && occupied == taken + Keys(norm, added)
    {
      assert triggers[..k + 1][..k] == triggers[..k];
      if IsEligible(triggers[k]) {
        var alias := Alias(triggers[k]);
        if norm(alias) !in occupied {
          KeysOfMore(norm, added, alias);
          added, occupied := added + [alias], occupied + {norm(alias)};
        }
      }
    }
    assert triggers[..|triggers|] == triggers;
  }

  lemma KeysOfMore(norm: string -> string, s: seq<string>, t: string)
    ensures Keys(norm, s + [t]) == Keys(norm, s) + {norm(t)}
  {
  }

  method AssignAliases(norm: string -> string, generic: seq<Action>, taken: set<string>)
    returns (body: seq<Action>, managed: Managed)
    ensures body == Extended(generic, Assigned(norm, generic, taken))
    ensures managed == ManagedOf(generic, Assigned(norm, generic, taken))
  {
    hide Extended, ManagedOf, Assigned;
    body, managed := generic, map[];
    var occupied := taken;
    ghost var done: seq<seq<string>> := [];
    var i: nat := |generic|;
    NothingAssigned(norm, generic, taken);
    while i > 0
      invariant i <= |generic| && |done| == |generic| - i
      invariant Assigned(norm, generic, taken) == Assigned(norm, generic[..i], occupied) + done
      invariant body == generic[..i] + Extended(generic[i..], done)
      invariant managed == ManagedOf(generic[i..], done)
    {
      i := i - 1;
      var name := generic[i].name;
      var added: seq<string> := [];
      AssignedStep(norm, generic, i, occupied, done);
      if IsManaged(name) {
        added, occupied := AddAliases(norm, generic[i].triggers, occupied);
      }
      ExtendedStep(generic, i, added, done);
      if added != [] {
        managed := managed[name := added];
        body := body[i := Action(name, generic[i].triggers + added)];
      }
      done := [added] + done;
    }
    AllAssigned(norm, generic, occupied, done);
  }

  lemma NothingAssigned(norm: string -> string, generic: seq<Action>, taken: set<string>)
    ensures var n := |generic|;
            && Assigned(norm, generic, taken) == Assigned(norm, generic[..n], taken) + []
            && generic == generic[..n] + Extended(generic[n..], [])
            && ManagedOf(generic[n..], []) == map[]
  {
    assert generic[..|generic|] == generic;
  }

  lemma AllAssigned(norm: string -> string, generic: seq<Action>, occupied: set<string>, done: seq<seq<string>>)
    requires |done| == |generic|
    ensures generic[0..] == generic && Assigned(norm, generic[..0], occupied) + done == done
    ensures generic[..0] + Extended(generic, done) == Extended(generic, done)
  {
  }

  lemma ExtendedStep(generic: seq<Action>, i: nat, added: seq<string>, done: seq<seq<string>>)
    requires i < |generic| && |done| == |generic| - i - 1
    ensures var before, after := generic[..i + 1] + Extended(generic[i + 1..], done),
                                 generic[..i] + Extended(generic[i..], [added] + done);
            && after == before[i := Action(generic[i].name, generic[i].triggers + added)]
            && (added == [] ==> after == before)
    ensures var before, after := ManagedOf(generic[i + 1..], done), ManagedOf(generic[i..], [added] + done);
            after == if added == [] then before else before[generic[i].name := added]
  {
    assert generic[i].triggers + [] == generic[i].triggers;
    assert ([added] + done)[1..] == done && generic[i..][1..] == generic[i + 1..];
    ExtendedAt(generic, i, added, done);
    hide Extended;
    SetBetween(generic, i, Action(generic[i].name, generic[i].triggers + added), Extended(generic[i + 1..], done));
  }

  lemma SetBetween(s: seq<Action>, i: nat, x: Action, t: seq<Action>)
    requires i < |s|
    ensures (s[..i + 1] + t)[i := x] == s[..i] + ([x] + t)
    ensures x == s[i] ==> s[..i + 1] + t == s[..i] + ([x] + t)
  {
  }

  lemma ExtendedAt(generic: seq<Action>, i: nat, added: seq<string>, done: seq<seq<string>>)
    requires i < |generic| && |done| == |generic| - i - 1
    ensures Extended(generic[i..], [added] + done) ==
            [Action(generic[i].name, generic[i].triggers + added)] + Extended(generic[i + 1..], done)
  {
  }

  /** The last action that is left takes its aliases. */
  lemma AssignedStep(norm: string -> string, generic: seq<Action>, i: nat, occupied: set<string>,
                     done: seq<seq<string>>)
    requires i < |generic|
    ensures var added := AliasesOf(norm, generic[i], occupied);
            Assigned(norm, generic[..i + 1], occupied) + done ==
            Assigned(norm, generic[..i], occupied + Keys(norm, added)) + ([added] + done)
    ensures !IsManaged(generic[i].name) ==> occupied + Keys(norm, AliasesOf(norm, generic[i], occupied)) == occupied
  {
    assert generic[..i + 1][..i] == generic[..i];
  }

  method SynchronizeInterfaceInputProfile(norm: string -> string, p: Profile, defaults: map<Id, seq<string>>,
                                          previous: Managed)
    returns (r: Result)
    ensures r == Synchronized(norm, p, defaults, previous)
  {
    hide Cleaned, Assigned, Extended, ManagedOf, HasAction, Occupied, Effective;
    var body := p.generic;
    if !HasAction(body, OPEN_MAP) && (GENERIC, OPEN_MAP) in defaults {
      body := body + [Action(OPEN_MAP, defaults[(GENERIC, OPEN_MAP)])];
    }
    if !HasAction(body, TOGGLE_INVENTORY) && (GENERIC, TOGGLE_INVENTORY) in defaults {
      body := body + [Action(TOGGLE_INVENTORY, defaults[(GENERIC, TOGGLE_INVENTORY)])];
    }
    body := RemovePrevious(body, previous);
    var effective := Effective(defaults, p.(generic := body));
    var updated, managed := AssignAliases(norm, body, Occupied(norm, effective));
    r := Result(p.(generic := updated), managed);
  }
}
