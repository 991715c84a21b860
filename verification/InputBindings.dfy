/**
 Which aliases are added, told by the player's own sets, the defaults and the earlier ownership alone
 (electron/services/interface-input-profile.ts:85-137).
 */
module InputBindings {
  import opened InputProfile

  // ---------- The bindings in effect ----------

  /** An action of the Generic set. */
  ghost predicate InGeneric(p: Profile, id: Id) {
    exists i :: 0 <= i < |p.generic| && id == ("Generic", p.generic[i].name)
  }

  /** A trigger is bound: by the Generic set, by another set of the player for an action that Generic does
      not have, or by a default that neither overrides. */
  ghost predicate Binds(p: Profile, defaults: map<Id, seq<string>>, id: Id, t: string) {
    if InGeneric(p, id) then
      exists i :: 0 <= i < |p.generic| && id == ("Generic", p.generic[i].name) && t in p.generic[i].triggers
    else if id in p.others then t in p.others[id]
    else id in defaults && t in defaults[id]
  }

  lemma EffectiveIsBinds(p: Profile, defaults: map<Id, seq<string>>, id: Id, t: string)
    requires Unique(p.generic)
    ensures (id in Effective(defaults, p) && t in Effective(defaults, p)[id]) <==> Binds(p, defaults, id, t)
  {
    if InGeneric(p, id) {
      var i :| 0 <= i < |p.generic| && id == (GENERIC, p.generic[i].name);
      TableHolds(p.generic, i);
    } else if id in Table(p.generic) {
      TableHasOnly(p.generic, id);
      assert false;
    }
    hide Table;
  }

  /** Some bound trigger has this form. */
  ghost predicate IsTaken(norm: string -> string, p: Profile, defaults: map<Id, seq<string>>, key: string) {
    exists id, t :: Binds(p, defaults, id, t) && norm(t) == key
  }

  lemma OccupiedIsTaken(norm: string -> string, p: Profile, defaults: map<Id, seq<string>>, key: string)
    requires Unique(p.generic)
    ensures key in Occupied(norm, Effective(defaults, p)) <==> IsTaken(norm, p, defaults, key)
  {
    hide Effective, Binds;
    if key in Occupied(norm, Effective(defaults, p)) {
      var id, t :| id in Effective(defaults, p) && t in Effective(defaults, p)[id] && norm(t) == key;
      EffectiveIsBinds(p, defaults, id, t);
    }
    if IsTaken(norm, p, defaults, key) {
      var id, t :| Binds(p, defaults, id, t) && norm(t) == key;
      EffectiveIsBinds(p, defaults, id, t);
    }
  }

  // ---------- Who gets a form ----------

  /** The action has an eligible trigger whose alias has this form. */
  ghost predicate Wants(norm: string -> string, x: Action, key: string) {
    IsManaged(x.name) && exists t :: t in x.triggers && IsEligible(t) && norm("Shift+" + t) == key
  }

  /** The first eligible trigger whose alias has the form of this one's. */
  ghost predicate IsFirst(norm: string -> string, triggers: seq<string>, k: nat)
    requires k < |triggers|
  {
    && IsEligible(triggers[k])
    && forall l :: 0 <= l < k && IsEligible(triggers[l]) ==>
         norm("Shift+" + triggers[l]) != norm("Shift+" + triggers[k])
  }

  ghost predicate HasFirst(norm: string -> string, triggers: seq<string>, t: string) {
    exists k :: 0 <= k < |triggers| && triggers[k] == t && IsFirst(norm, triggers, k)
  }

  lemma {:induction false} AliasForms(norm: string -> string, triggers: seq<string>, occupied: set<string>, key: string)
    ensures key in Keys(norm, Aliases(norm, triggers, occupied)) <==>
            key !in occupied && exists t :: t in triggers && IsEligible(t) && norm("Shift+" + t) == key
  {
    hide IsEligible;
    if triggers != [] {
      var init, last := triggers[..|triggers| - 1], triggers[|triggers| - 1];
      AliasForms(norm, init, occupied, key);
      KeysOfMore(norm, Aliases(norm, init, occupied), Alias(last));
      assert triggers == init + [last];
      assert Alias(last) == "Shift+" + last;
      if IsEligible(last) && norm("Shift+" + last) == key {
        assert last in triggers;
      }
      assert forall t :: t in triggers <==> t in init || t == last;
    }
  }

  lemma FirstOfMore(norm: string -> string, init: seq<string>, last: string, t: string)
    ensures HasFirst(norm, init + [last], t) <==>
            || HasFirst(norm, init, t)
            || (t == last && IsEligible(last)
                && forall u :: u in init && IsEligible(u) ==> norm("Shift+" + u) != norm("Shift+" + last))
  {
    hide IsEligible;
    var triggers := init + [last];
    forall k | 0 <= k < |init| ensures IsFirst(norm, triggers, k) <==> IsFirst(norm, init, k) {
      assert forall l :: 0 <= l <= k ==> triggers[l] == init[l];
    }
    assert triggers[|init|] == last;
    assert IsFirst(norm, triggers, |init|) <==>
           IsEligible(last) && forall u :: u in init && IsEligible(u) ==> norm("Shift+" + u) != norm("Shift+" + last)
    by {
      assert forall l :: 0 <= l < |init| ==> triggers[l] == init[l] && init[l] in init;
    }
    if HasFirst(norm, init, t) {
      var k :| 0 <= k < |init| && init[k] == t && IsFirst(norm, init, k);
      assert triggers[k] == t && IsFirst(norm, triggers, k);
    }
    if HasFirst(norm, triggers, t) {
      var k :| 0 <= k < |triggers| && triggers[k] == t && IsFirst(norm, triggers, k);
      if k < |init| {
        assert init[k] == t;
      }
    }
  }

  lemma {:induction false} AliasesExactly(norm: string -> string, triggers: seq<string>, occupied: set<string>,
                                          t: string)
    ensures Alias(t) in Aliases(norm, triggers, occupied) <==>
            norm("Shift+" + t) !in occupied && HasFirst(norm, triggers, t)
  {
    hide IsEligible, HasFirst, Alias;
    AliasIs(t);
    if triggers == [] {
      NoFirst(norm, t);
    } else {
      var init, last := triggers[..|triggers| - 1], triggers[|triggers| - 1];
      assert triggers == init + [last];
      AliasesExactly(norm, init, occupied, t);
      FirstOfMore(norm, init, last, t);
      AliasIs(last);
      AliasForms(norm, init, occupied, norm("Shift+" + last));
      if Alias(t) == Alias(last) {
        AliasIsInjective(t, last);
      }
    }
  }

  lemma AliasIs(t: string)
    ensures Alias(t) == "Shift+" + t
  {
  }

  lemma NoFirst(norm: string -> string, t: string)
    ensures !HasFirst(norm, [], t)
  {
  }

  /** Nothing that comes later in the table wants the form. */
  ghost predicate LastToWant(norm: string -> string, generic: seq<Action>, i: nat, key: string) {
    forall j :: i < j < |generic| ==> !Wants(norm, generic[j], key)
  }

  lemma {:induction false} AssignedExactly(norm: string -> string, generic: seq<Action>, occupied: set<string>,
                                           i: nat, t: string)
    requires i < |generic|
    ensures Alias(t) in Assigned(norm, generic, occupied)[i] <==>
            && IsManaged(generic[i].name) && norm("Shift+" + t) !in occupied
            && HasFirst(norm, generic[i].triggers, t) && LastToWant(norm, generic, i, norm("Shift+" + t))
  {
    hide IsEligible, IsManaged, HasFirst, Alias, Aliases, Keys;
    var n, key := |generic| - 1, norm("Shift+" + t);
    var own := AliasesOf(norm, generic[n], occupied);
    AliasesExactly(norm, generic[n].triggers, occupied, t);
    if i < n {
      AssignedExactly(norm, generic[..n], occupied + Keys(norm, own), i, t);
      AliasForms(norm, generic[n].triggers, occupied, key);
      NoKeys(norm);
      assert forall j :: 0 <= j < n ==> generic[..n][j] == generic[j];
      assert LastToWant(norm, generic, i, key) <==>
             LastToWant(norm, generic[..n], i, key) && !Wants(norm, generic[n], key);
    }
  }

  lemma NoKeys(norm: string -> string)
    ensures Keys(norm, []) == {}
  {
  }

  /** An alias is added for a trigger exactly when its action is managed, the trigger is eligible and the
      first of its action whose alias has this form, no later managed action has such a trigger, and no
      binding in effect has this form. Defaults that the player overrides count for nothing. */
  lemma AliasIsAddedExactlyWhen(norm: string -> string, p: Profile, defaults: map<Id, seq<string>>, previous: Managed,
                                i: nat, t: string)
    requires Unique(p.generic) && i < |Own(p, defaults, previous).generic|
    ensures var own := Own(p, defaults, previous);
            "Shift+" + t in AddedTo(norm, own, defaults)[i] <==>
            && IsManaged(own.generic[i].name)
            && HasFirst(norm, own.generic[i].triggers, t)
            && LastToWant(norm, own.generic, i, norm("Shift+" + t))
            && !IsTaken(norm, own, defaults, norm("Shift+" + t))
  {
    hide IsEligible, IsManaged, HasFirst, LastToWant, IsTaken, Occupied, Effective, Alias;
    var own := Own(p, defaults, previous);
    OwnIsUnique(p, defaults, previous);
    AliasIs(t);
    AssignedExactly(norm, own.generic, Occupied(norm, Effective(defaults, own)), i, t);
    OccupiedIsTaken(norm, own, defaults, norm("Shift+" + t));
  }

  /** The form of an added alias is not that of any trigger in another set of the player, unless Generic
      overrides it; nor of any trigger of any action in Generic; nor of any default that the player does
      not override. */
  lemma AliasAvoidsBindings(norm: string -> string, p: Profile, defaults: map<Id, seq<string>>, previous: Managed,
                            i: nat, a: string, u: string)
    requires Unique(p.generic) && i < |Own(p, defaults, previous).generic|
    requires a in AddedTo(norm, Own(p, defaults, previous), defaults)[i] && norm(u) == norm(a)
    ensures var generic := Own(p, defaults, previous).generic;
            && (forall j :: 0 <= j < |generic| ==> u !in generic[j].triggers)
            && (forall id :: id in p.others
                             && (forall j :: 0 <= j < |generic| ==> id != ("Generic", generic[j].name)) ==>
                  u !in p.others[id])
            && (forall id :: id in defaults && id !in p.others
                             && (forall j :: 0 <= j < |generic| ==> id != ("Generic", generic[j].name)) ==>
                  u !in defaults[id])
  {
    hide Effective, Binds, Occupied, AddedTo;
    var own := Own(p, defaults, previous);
    OwnIsUnique(p, defaults, previous);
    AddedIsFree(norm, own, defaults, i);
    OccupiedIsTaken(norm, own, defaults, norm(a));
    forall id ensures !Binds(own, defaults, id, u) {
    }
    NothingBinds(own, defaults, u);
  }

  lemma NothingBinds(own: Profile, defaults: map<Id, seq<string>>, u: string)
    requires forall id :: !Binds(own, defaults, id, u)
    ensures forall j :: 0 <= j < |own.generic| ==> u !in own.generic[j].triggers
    ensures forall id :: id in own.others && !InGeneric(own, id) ==> u !in own.others[id]
    ensures forall id :: id in defaults && id !in own.others && !InGeneric(own, id) ==> u !in defaults[id]
  {
    forall j | 0 <= j < |own.generic| ensures u !in own.generic[j].triggers {
      assert !Binds(own, defaults, ("Generic", own.generic[j].name), u);
    }
    forall id | id in own.others && !InGeneric(own, id) ensures u !in own.others[id] {
      assert !Binds(own, defaults, id, u);
    }
    forall id | id in defaults && id !in own.others && !InGeneric(own, id) ensures u !in defaults[id] {
      assert !Binds(own, defaults, id, u);
    }
  }

  // ---------- The table that the aliases are for ----------

  /** The table keeps the player's actions and their order, followed by the managed ones that only the
      defaults have; a managed action loses the aliases it had been given before. */
  lemma OwnTable(p: Profile, defaults: map<Id, seq<string>>, previous: Managed, i: nat, t: string)
    requires i < |Own(p, defaults, previous).generic|
    ensures var own, n := Own(p, defaults, previous), |p.generic|;
            && own.others == p.others && n <= |own.generic|
            && if i < n then
                 && own.generic[i].name == p.generic[i].name
                 && (t in own.generic[i].triggers <==>
                     t in p.generic[i].triggers && !GivenBefore(previous, own.generic[i].name, t))
               else
                 && IsManaged(own.generic[i].name) && !HasAction(p.generic, own.generic[i].name)
                 && ("Generic", own.generic[i].name) in defaults
                 && (t in own.generic[i].triggers <==>
                     t in defaults[("Generic", own.generic[i].name)] && !GivenBefore(previous, own.generic[i].name, t))
  {
    hide HasAction;
    var inherited := Inherited(p.generic, defaults);
    NotThereYet(p.generic, defaults);
    WithoutHas(inherited[i].triggers, Owned(previous, inherited[i].name), t);
    hide Without;
  }

  ghost predicate GivenBefore(previous: Managed, name: string, t: string) {
    IsManaged(name) && name in previous && t in previous[name]
  }

  lemma NotThereYet(generic: seq<Action>, defaults: map<Id, seq<string>>)
    ensures !HasAction(InheritedOne(generic, defaults, OPEN_MAP), TOGGLE_INVENTORY) ==>
              !HasAction(generic, TOGGLE_INVENTORY)
  {
    InheritedOneHas(generic, defaults, OPEN_MAP, TOGGLE_INVENTORY);
  }

  // ---------- Eligible triggers ----------

  /** The part of a trigger before its first underscore. */
  function Head(t: string): string {
    if t == "" || t[0] == '_' then "" else [t[0]] + Head(t[1..])
  }

  /** The same word in any case. */
  predicate SameWord(s: string, word: string) {
    |s| == |word| && forall i :: 0 <= i < |s| ==> Lower(s[i]) == word[i]
  }

  lemma {:induction false} HeadIs(t: string)
    ensures |Head(t)| <= |t| && Head(t) == t[..|Head(t)|]
    ensures forall i :: 0 <= i < |Head(t)| ==> t[i] != '_'
    ensures |Head(t)| < |t| ==> t[|Head(t)|] == '_'
  {
    if t != "" && t[0] != '_' {
      HeadIs(t[1..]);
      assert forall i :: 0 < i < |t| ==> t[i] == t[1..][i - 1];
    }
  }

  lemma StartsWithHead(t: string, word: string)
    requires forall i :: 0 <= i < |word| ==> word[i] != '_'
    ensures StartsWithWord(t, word) <==> SameWord(Head(t), word)
  {
    HeadIs(t);
    var h := |Head(t)|;
    if StartsWithWord(t, word) {
      forall i | 0 <= i < |word| ensures t[i] != '_' {
        assert Lower(t[i]) == word[i];
      }
    }
  }

  lemma PadHeads(t: string)
    ensures StartsWithWord(t, "gamepad") <==> SameWord(Head(t), "gamepad")
    ensures StartsWithWord(t, "joystick") <==> SameWord(Head(t), "joystick")
  {
    hide SameWord, StartsWithWord, Head;
    StartsWithHead(t, "gamepad");
    StartsWithHead(t, "joystick");
  }

  lemma ModifierHeads(t: string)
    ensures StartsWithWord(t, "shift") <==> SameWord(Head(t), "shift")
    ensures StartsWithWord(t, "control") <==> SameWord(Head(t), "control")
    ensures StartsWithWord(t, "alt") <==> SameWord(Head(t), "alt")
  {
    hide SameWord, StartsWithWord, Head;
    StartsWithHead(t, "shift");
    StartsWithHead(t, "control");
    StartsWithHead(t, "alt");
  }

  /** A trigger is eligible exactly when it is one plain word, and the part before its first underscore
      does not name a pad, a stick or a modifier. */
  lemma EligibleExactly(t: string)
    ensures IsEligible(t) <==>
            && t != "" && (forall i :: 0 <= i < |t| ==> IsWordChar(t[i]))
            && !SameWord(Head(t), "gamepad") && !SameWord(Head(t), "joystick")
            && !SameWord(Head(t), "shift") && !SameWord(Head(t), "control") && !SameWord(Head(t), "alt")
  {
    hide SameWord, StartsWithWord, IsWordChar, Head;
    PadHeads(t);
    ModifierHeads(t);
  }

  /** Word characters are the digits, the letters A to Z in both cases and the underscore, and only these
      letters have two cases. */
  lemma WordsAndCase(c: char)
    ensures IsWordChar(c) <==> 48 <= c as int <= 57 || 65 <= c as int <= 90 || 97 <= c as int <= 122 || c as int == 95
    ensures Lower(c) as int == c as int + if 65 <= c as int <= 90 then 32 else 0
  {
  }
}
