/**
 The pending table of voice volume requests (native/vivoxproxy/voice_volume_compat.h).

 A legacy volume request of the game is answered by a replacement request that the voice SDK
 understands. Until the SDK responds, the proxy holds the original and the SDK the replacement.
 The heap of SDK requests is a map from pointers to objects; a pointer may be reused as soon as
 its object is destroyed. Who owns an object is bookkeeping of the model.
 */
module VoiceVolume {
  import opened Options

  type Pointer = nat

  const NULL: Pointer := 0
  const PENDING_LIMIT: nat := 128
  const SPEAKER_LEGACY: nat := 0x40
  const MIC_LEGACY: nat := 0x3f
  const SPEAKER_AUX: nat := 0x5e
  const MIC_AUX: nat := 0x5d
  const RESPONSE: nat := 2

  datatype Request = Request(kind: nat, cookie: Option<string>, vcookie: Pointer, level: int)

  datatype Owner = Game | Proxy | Sdk

  datatype Object = Object(request: Request, owner: Owner)

  datatype Pending = Pending(original: Pointer, replacement: Pointer, kind: nat)

  const EMPTY: Pending := Pending(NULL, NULL, 0)

  /** The pending table, the live requests, and how often each pointer was created and destroyed. */
  datatype World = World(entries: seq<Pending>, live: map<Pointer, Object>,
                         created: multiset<Pointer>, destroyed: multiset<Pointer>)

  datatype Message = Message(kind: nat, response: nat, request: Pointer)

  predicate IsLegacy(kind: nat) { kind == SPEAKER_LEGACY || kind == MIC_LEGACY }

  predicate IsAux(kind: nat) { kind == SPEAKER_AUX || kind == MIC_AUX }

  function AuxKind(kind: nat): nat { if kind == SPEAKER_LEGACY then SPEAKER_AUX else MIC_AUX }

  /** The request that the SDK gets instead of `request`. */
  function AuxOf(request: Request): Request { request.(kind := AuxKind(request.kind)) }

  // ---------- Objects ----------

  function Made(w: World, p: Pointer, x: Object): World
    requires p !in w.live
  {
    w.(live := w.live[p := x], created := w.created + multiset{p})
  }

  function Gone(w: World, p: Pointer): World
    requires p in w.live
  {
    w.(live := w.live - {p}, destroyed := w.destroyed + multiset{p})
  }

  function Given(w: World, p: Pointer, owner: Owner): World
    requires p in w.live
  {
    w.(live := w.live[p := w.live[p].(owner := owner)])
  }

  // ---------- The table ----------

  predicate Holds(entries: seq<Pending>, original: Pointer) {
    exists i :: 0 <= i < |entries| && entries[i].original == original
  }

  predicate IsSlot(entries: seq<Pending>, original: Pointer, i: nat) {
    && i <= |entries|
    && (i < |entries| ==> entries[i].original == original)
    && forall j :: 0 <= j < i ==> entries[j].original != original
  }

  /** The first slot with this original, or the length of the table. A free slot has none. */
  function SlotOf(entries: seq<Pending>, original: Pointer): (i: nat)
    ensures IsSlot(entries, original, i)
  {
    if entries == [] || entries[0].original == original then 0 else 1 + SlotOf(entries[1..], original)
  }

  /** The first slot with this replacement, or the length of the table. */
  function SlotFor(entries: seq<Pending>, replacement: Pointer): (i: nat)
    ensures i <= |entries|
    ensures i < |entries| ==> entries[i].replacement == replacement
    ensures forall j :: 0 <= j < i ==> entries[j].replacement != replacement
  {
    if entries == [] || entries[0].replacement == replacement then 0 else 1 + SlotFor(entries[1..], replacement)
  }

  predicate CanPrepare(w: World, original: Pointer, creation: Option<Pointer>, copied: bool)
    requires original in w.live
  {
    && IsLegacy(w.live[original].request.kind)
    && !Holds(w.entries, original)
    && Holds(w.entries, NULL)
    && creation.Some?
    && (w.live[original].request.cookie.Some? ==> copied)
  }

  predicate IsNew(w: World, creation: Option<Pointer>) {
    creation.Some? ==> creation.value != NULL && creation.value !in w.live
  }

  /** The world after `original` was linked to the new object `r` in slot `k`. */
  function Linked(w: World, original: Pointer, r: Pointer, k: nat): World
    requires original in w.live && r !in w.live && k < |w.entries|
  {
    var request := w.live[original].request;
    Given(Made(w, r, Object(AuxOf(request), Sdk)), original, Proxy)
      .(entries := w.entries[k := Pending(original, r, request.kind)])
  }

  /** The world after a call to prepare. The SDK creates the object `creation`, or fails to, and
      manages to copy the cookie or not. */
  function Prepared(w: World, original: Pointer, creation: Option<Pointer>, copied: bool): World
    requires original in w.live && IsNew(w, creation)
  {
    var request := w.live[original].request;
    if !IsLegacy(request.kind) || Holds(w.entries, original) || !Holds(w.entries, NULL) || creation.None? then w
    else if CanPrepare(w, original, creation, copied) then
      Linked(w, original, creation.value, SlotOf(w.entries, NULL))
    else
      Gone(Made(w, creation.value, Object(AuxOf(request), Sdk)), creation.value)
  }

  /** The replacement that prepare returns. */
  function PreparedPointer(w: World, original: Pointer, creation: Option<Pointer>, copied: bool): Pointer
    requires original in w.live
  {
    if CanPrepare(w, original, creation, copied) then creation.value else NULL
  }

  /** The world after the SDK refused a replacement: it is destroyed, and the original is the
      game's again. */
  function Cancelled(w: World, replacement: Pointer): World
    requires Sound(w)
  {
    var i := SlotFor(w.entries, replacement);
    if replacement == NULL || i == |w.entries| then w else
      assert Slot(w, i);
      Gone(Given(w, w.entries[i].original, Game), replacement).(entries := w.entries[i := EMPTY])
  }

  predicate IsRestored(w: World, m: Message) {
    m.kind == RESPONSE && IsAux(m.response) && m.request != NULL && SlotFor(w.entries, m.request) < |w.entries|
  }

  /** The message that the game receives for message `m` of the SDK. */
  function Restored(w: World, m: Message): Message {
    if IsRestored(w, m) then
      var e := w.entries[SlotFor(w.entries, m.request)];
      m.(response := e.kind, request := e.original)
    else m
  }

  /** Delivering a response hands the request it carries to the game, if that is still live. */
  function Delivered(w: World, m: Message): World
    requires Sound(w)
  {
    if IsRestored(w, m) then Cancelled(w, m.request)
    else if m.kind == RESPONSE && m.request in w.live then Given(w, m.request, Game)
    else w
  }

  /** The world after the game issued `p`. The SDK gets the replacement, or `p` itself when there is none,
      and accepts it or not. */
  function Issued(w: World, p: Pointer, creation: Option<Pointer>, copied: bool, accepted: bool): World
    requires Sound(w) && p in w.live && w.live[p].owner != Sdk && IsNew(w, creation)
  {
    var t := Prepared(w, p, creation, copied);
    if CanPrepare(w, p, creation, copied) then
      PreparedIsSound(w, p, creation, copied);
      if accepted then t else Cancelled(t, creation.value)
    else
      if accepted then Given(t, p, Sdk) else t
  }

  /** The first `n` slots of `w` are empty in `c`, and exactly their originals are gone. */
  ghost predicate IsCleared(w: World, n: nat, c: World)
    requires n <= |w.entries|
  {
    && |c.entries| == |w.entries|
    && (forall i :: 0 <= i < |w.entries| ==> c.entries[i] == if i < n then EMPTY else w.entries[i])
    && (forall p :: p in c.live <==> p in w.live && !Holds(w.entries[..n], p))
    && (forall p :: p in c.live ==> c.live[p] == w.live[p])
    && Counted(c)
  }

  /** Slot `n` is emptied, and the original in it destroyed. */
  function OneCleared(c: World, n: nat): World
    requires n < |c.entries| && (c.entries[n].original != NULL ==> c.entries[n].original in c.live)
  {
    var p := c.entries[n].original;
    (if p != NULL then Gone(c, p) else c).(entries := c.entries[n := EMPTY])
  }

  /** The world after the first `n` slots were cleared. */
  function Cleared(w: World, n: nat): (c: World)
    requires Sound(w) && n <= |w.entries|
    ensures IsCleared(w, n, c)
  {
    if n == 0 then
      w
    else
      StillLive(w, n - 1, Cleared(w, n - 1));
      OneStep(w, n - 1, Cleared(w, n - 1));
      OneCleared(Cleared(w, n - 1), n - 1)
  }

  /** An original that clearing has not come to is still live. */
  lemma StillLive(w: World, n: nat, c: World)
    requires Sound(w) && n < |w.entries| && IsCleared(w, n, c)
    ensures c.entries[n] == w.entries[n]
    ensures w.entries[n].original != NULL ==> w.entries[n].original in c.live
  {
    hide Counted;
    assert Slot(w, n);
    assert forall i :: 0 <= i < n ==> Apart(w.entries[i], w.entries[n]);
  }

  lemma OneStep(w: World, n: nat, c: World)
    requires NULL !in w.live && n < |w.entries| && IsCleared(w, n, c)
    requires w.entries[n].original != NULL ==> w.entries[n].original in c.live
    ensures IsCleared(w, n + 1, OneCleared(c, n))
  {
    forall p ensures Holds(w.entries[..n + 1], p) <==> Holds(w.entries[..n], p) || p == w.entries[n].original {
      HoldsMore(w.entries, n, p);
    }
    hide Holds;
  }

  lemma HoldsMore(entries: seq<Pending>, n: nat, p: Pointer)
    requires n < |entries|
    ensures Holds(entries[..n + 1], p) <==> Holds(entries[..n], p) || p == entries[n].original
  {
    var a, b := entries[..n], entries[..n + 1];
    assert b[n] == entries[n] && forall i :: 0 <= i < n ==> a[i] == b[i];
  }

  // ---------- The invariant ----------

  /** An entry is empty, or links an original that the proxy holds to a replacement that carries its
      cookies and level and that the SDK owns. */
  predicate Tracks(e: Pending, live: map<Pointer, Object>) {
    e == EMPTY
    || (&& e.original in live && live[e.original].owner == Proxy
        && live[e.original].request.kind == e.kind && IsLegacy(e.kind)
        && e.replacement in live && live[e.replacement] == Object(AuxOf(live[e.original].request), Sdk))
  }

  predicate Slot(w: World, i: nat) {
    i < |w.entries| && Tracks(w.entries[i], w.live)
  }

  predicate Apart(a: Pending, b: Pending) {
    a == EMPTY || b == EMPTY || (a.original != b.original && a.replacement != b.replacement)
  }

  /** Every pointer was created once more than it was destroyed if it is live, and as often if not. */
  ghost predicate Counted(w: World) {
    forall p :: w.created[p] == w.destroyed[p] + if p in w.live then 1 else 0
  }

  ghost predicate Sound(w: World) {
    && |w.entries| == PENDING_LIMIT
    && NULL !in w.live
    && (forall i :: 0 <= i < |w.entries| ==> Slot(w, i))
    && (forall i, j :: 0 <= i < j < |w.entries| ==> Apart(w.entries[i], w.entries[j]))
    && (forall p :: p in w.live && w.live[p].owner == Proxy ==> Holds(w.entries, p))
    && Counted(w)
  }

  /** The SDK responds to requests it owns, with their own type. */
  predicate Faithful(w: World, m: Message) {
    m.kind == RESPONSE ==>
      && m.request in w.live && w.live[m.request].owner == Sdk
      && w.live[m.request].request.kind == m.response
  }

  // ---------- Small facts ----------

  /** No request yet. */
  function Initial(): (w: World)
    ensures Sound(w)
  {
    World(seq(PENDING_LIMIT, _ => EMPTY), map[], multiset{}, multiset{})
  }

  lemma SlotIs(entries: seq<Pending>, original: Pointer, i: nat)
    requires IsSlot(entries, original, i)
    ensures SlotOf(entries, original) == i
  {
    var k := SlotOf(entries, original);
    assert !(k < i) && !(i < k);
  }

  lemma FreeIsNull(entries: seq<Pending>)
    ensures Holds(entries, NULL) <==> SlotOf(entries, NULL) < |entries|
  {
  }

  // ---------- The calls in place ----------

  /** A message in memory, whose response type and request the proxy overwrites. */
  class Letter {
    var kind: nat
    var response: nat
    var request: Pointer

    constructor (m: Message)
      ensures Content() == m
    {
      kind, response, request := m.kind, m.response, m.request;
    }

    function Content(): Message
      reads this
    {
      Message(kind, response, request)
    }
  }

  class Table {
    const entries: array<Pending>
    var live: map<Pointer, Object>
    var created: multiset<Pointer>
    var destroyed: multiset<Pointer>

    ghost function Contents(): World
      reads this, entries
    {
      World(entries[..], live, created, destroyed)
    }

    constructor ()
      ensures fresh(entries) && entries.Length == PENDING_LIMIT
      ensures Contents() == Initial() && Sound(Contents())
    {
      entries, live, created, destroyed := new Pending[PENDING_LIMIT](_ => EMPTY), map[], multiset{}, multiset{};
      new;
      assert entries[..] == Initial().entries;
    }

    /** The SDK creates a request. */
    method Create(p: Pointer, x: Object)
      requires p !in live
      modifies this`live, this`created
      ensures Contents() == Made(old(Contents()), p, x)
    {
      live, created := live[p := x], created + multiset{p};
    }

    /** The SDK destroys a request, which must be live. */
    method Destroy(p: Pointer)
      requires p in live
      modifies this`live, this`destroyed
      ensures Contents() == Gone(old(Contents()), p)
    {
      live, destroyed := live - {p}, destroyed + multiset{p};
    }

    /** One pass looks for the original and for the first free slot. */
    method FindFree(original: Pointer) returns (pending: bool, free: nat)
      ensures pending == Holds(entries[..], original)
      ensures !pending ==> free == SlotOf(entries[..], NULL)
    {
      pending, free := false, entries.Length;
      var index := 0;
      while index < entries.Length
        invariant index <= entries.Length
        invariant free < index || free == entries.Length
        invariant !Holds(entries[..index], original)
        invariant IsSlot(entries[..index], NULL, if free < index then free else index)
      {
        assert entries[..index + 1] == entries[..index] + [entries[index]];
        if entries[index].original == original {
          assert entries[..][index].original == original;
          return true, free;
        }
        if free == entries.Length && entries[index].original == NULL {
          free := index;
        }
        index := index + 1;
      }
      assert entries[..index] == entries[..];
      SlotIs(entries[..], NULL, free);
    }

    method Prepare(original: Pointer, creation: Option<Pointer>, copied: bool) returns (replacement: Pointer)
      requires original in live && original != NULL && IsNew(Contents(), creation) && entries.Length == PENDING_LIMIT
      modifies this, entries
      ensures Contents() == Prepared(old(Contents()), original, creation, copied)
      ensures replacement == PreparedPointer(old(Contents()), original, creation, copied)
    {
      var request := live[original].request;
      if !IsLegacy(request.kind) {
        return NULL;
      }
      var pending, free := FindFree(original);
      FreeIsNull(entries[..]);
      if pending || free == entries.Length || creation.None? {
        return NULL;
      }
      replacement := creation.value;
      Create(replacement, Object(AuxOf(request), Sdk));
      if request.cookie.Some? && !copied {
        Destroy(replacement);
        return NULL;
      }
      live := live[original := live[original].(owner := Proxy)];
      entries[free] := Pending(original, replacement, request.kind);
      assert entries[..] == old(entries[..])[free := entries[free]];
    }

    /** The SDK gets the replacement of a legacy volume request, or the request itself. */
    method Issue(p: Pointer, creation: Option<Pointer>, copied: bool, accepted: bool)
      requires entries.Length == PENDING_LIMIT && Sound(Contents())
      requires p in live && live[p].owner != Sdk && IsNew(Contents(), creation)
      modifies this, entries
      ensures Contents() == Issued(old(Contents()), p, creation, copied, accepted)
    {
      ghost var w := Contents();
      PreparedIsSound(w, p, creation, copied);
      var replacement := Prepare(p, creation, copied);
      if replacement != NULL {
        if !accepted {
          Cancel(replacement);
        }
      } else if accepted {
        live := live[p := live[p].(owner := Sdk)];
      }
    }

    method FindReplacement(replacement: Pointer) returns (index: nat)
      ensures index == SlotFor(entries[..], replacement)
    {
      index := 0;
      while index < entries.Length && entries[index].replacement != replacement
        invariant index <= entries.Length
        invariant forall j :: 0 <= j < index ==> entries[j].replacement != replacement
      {
        index := index + 1;
      }
    }

    method Cancel(replacement: Pointer)
      requires entries.Length == PENDING_LIMIT && Sound(Contents())
      modifies this, entries
      ensures Contents() == Cancelled(old(Contents()), replacement)
    {
      var index := FindReplacement(replacement);
      if index < entries.Length && replacement != NULL {
        Release(index, replacement);
      }
    }

    /** The replacement in a slot is destroyed, and its original is the game's again. */
    method Release(index: nat, replacement: Pointer)
      requires entries.Length == PENDING_LIMIT && Sound(Contents())
      requires index == SlotFor(entries[..], replacement) < entries.Length && replacement != NULL
      modifies this, entries
      ensures Contents() == Cancelled(old(Contents()), replacement)
    {
      assert Slot(Contents(), index);
      var original := entries[index].original;
      live := live[original := live[original].(owner := Game)];
      Destroy(replacement);
      entries[index] := EMPTY;
      assert entries[..] == old(entries[..])[index := EMPTY];
    }

    method RestoreResponse(message: Letter)
      requires entries.Length == PENDING_LIMIT && Sound(Contents())
      modifies this, entries, message
      ensures message.Content() == Restored(old(Contents()), old(message.Content()))
      ensures Contents() == Delivered(old(Contents()), old(message.Content()))
    {
      if message.kind != RESPONSE {
        return;
      }
      var replacement := message.request;
      var index := FindReplacement(replacement);
      if !IsAux(message.response) || replacement == NULL || index == entries.Length {
        if replacement in live {
          live := live[replacement := live[replacement].(owner := Game)];
        }
        return;
      }
      message.response := entries[index].kind;
      message.request := entries[index].original;
      Release(index, replacement);
    }

    /** Every pending original is destroyed; the SDK keeps the replacements. */
    method Clear()
      requires entries.Length == PENDING_LIMIT && Sound(Contents())
      modifies this, entries
      ensures Contents() == Cleared(old(Contents()), PENDING_LIMIT)
    {
      ghost var w := Contents();
      hide Sound, OneCleared;
      var index: nat := 0;
      while index < entries.Length
        invariant index <= entries.Length
        invariant Contents() == Cleared(w, index)
      {
        StillLive(w, index, Contents());
        ClearSlot(index);
        index := index + 1;
      }
    }

    method ClearSlot(index: nat)
      requires index < entries.Length && (entries[index].original != NULL ==> entries[index].original in live)
      modifies this, entries
      ensures Contents() == OneCleared(old(Contents()), index)
    {
      if entries[index].original != NULL {
        Destroy(entries[index].original);
      }
      entries[index] := EMPTY;
      assert entries[..] == old(entries[..])[index := EMPTY];
    }
  }

  // ---------- Runs ----------

  /** What can happen between the game, the proxy and the SDK, one at a time under the lock. */
  datatype Event =
    | Create(p: Pointer, request: Request)
    | Write(p: Pointer, request: Request)
    | Dispose(p: Pointer)
    | Issue(p: Pointer, creation: Option<Pointer>, copied: bool, accepted: bool)
    | Deliver(message: Message)
    | Uninitialize

  predicate Owns(w: World, owner: Owner, p: Pointer) {
    p in w.live && w.live[p].owner == owner
  }

  /** The game writes and disposes of only what it owns, although it may issue a pending request again.
      The SDK creates objects at places that are free. */
  predicate Allowed(w: World, e: Event) {
    match e
    case Create(p, _) => p != NULL && p !in w.live
    case Write(p, _) => Owns(w, Game, p)
    case Dispose(p) => Owns(w, Game, p)
    case Issue(p, creation, _, _) => (Owns(w, Game, p) || Owns(w, Proxy, p)) && IsNew(w, creation)
    case Deliver(_) => true
    case Uninitialize => true
  }

  function Step(w: World, e: Event): World
    requires Sound(w) && Allowed(w, e)
  {
    match e
    case Create(p, request) => Made(w, p, Object(request, Game))
    case Write(p, request) => w.(live := w.live[p := Object(request, Game)])
    case Dispose(p) => Gone(w, p)
    case Issue(p, creation, copied, accepted) => Issued(w, p, creation, copied, accepted)
    case Deliver(m) => Delivered(w, m)
    case Uninitialize => ShutDown(w)
  }

  /** The proxy clears its table, and the SDK destroys whatever it owns. */
  function ShutDown(w: World): World
    requires Sound(w)
  {
    var c := Cleared(w, |w.entries|);
    var rest := set p | p in c.live && c.live[p].owner == Sdk;
    c.(live := c.live - rest, destroyed := c.destroyed + multiset(rest))
  }

  // ---------- Every step keeps the table sound ----------

  /** The SDK accepts a request that it gets although the proxy holds it and has issued its replacement. */
  predicate Reissues(w: World, e: Event) {
    e.Issue? && e.accepted && Holds(w.entries, e.p)
  }

  /** A response passes with a request of the table in it: with an original, or with a replacement but
      not with a type that is restored. */
  predicate Misreports(w: World, m: Message) {
    && m.kind == RESPONSE && m.request != NULL && !IsRestored(w, m)
    && (Holds(w.entries, m.request) || SlotFor(w.entries, m.request) < |w.entries|)
  }

  predicate Harms(w: World, e: Event) {
    Reissues(w, e) || (e.Deliver? && Misreports(w, e.message))
  }

  /** An event keeps the table sound, except exactly when the SDK takes a pending original, or answers
      with a request of the table in a way that is not restored. */
  lemma StepKeepsSoundExactlyWhen(w: World, e: Event)
    requires Sound(w) && Allowed(w, e)
    ensures Sound(Step(w, e)) <==> !Harms(w, e)
  {
    hide Sound;
    match e
    case Create(p, request) => MadeIsSound(w, p, request);
    case Write(p, request) =>
      NotPending(w, p);
      OwnIsSound(w, p, Object(request, Game));
    case Dispose(p) => GoneIsSound(w, p);
    case Issue(p, creation, copied, accepted) => IssuedIsSound(w, p, creation, copied, accepted);
    case Deliver(m) => DeliveredIsSound(w, m);
    case Uninitialize => ShutDownIsSound(w);
  }

  /** An SDK that responds to requests it owns, with their own type, does no harm. */
  lemma FaithfulDoesNoHarm(w: World, m: Message)
    requires Sound(w) && Faithful(w, m)
    ensures !Misreports(w, m)
  {
    if m.kind == RESPONSE {
      NotPending(w, m.request);
      var i := SlotFor(w.entries, m.request);
      assert i < |w.entries| ==> Slot(w, i);
    }
  }

  /** What the proxy does not hold is in no slot. */
  lemma NotPending(w: World, p: Pointer)
    requires Sound(w) && p in w.live && w.live[p].owner != Proxy
    ensures !Holds(w.entries, p)
  {
    forall i | 0 <= i < |w.entries| ensures w.entries[i].original != p {
      assert Slot(w, i);
    }
  }

  /** A slot whose original is not the proxy's, or whose replacement is not the SDK's, is unsound. */
  lemma TakenIsUnsound(w: World, i: nat)
    requires i < |w.entries| && w.entries[i] != EMPTY
    requires !Owns(w, Proxy, w.entries[i].original) || !Owns(w, Sdk, w.entries[i].replacement)
    ensures !Sound(w)
  {
    assert !Slot(w, i);
  }

  lemma MadeIsSound(w: World, p: Pointer, request: Request)
    requires Sound(w) && p != NULL && p !in w.live
    ensures Sound(Made(w, p, Object(request, Game)))
  {
    var t := Made(w, p, Object(request, Game));
    forall i | 0 <= i < |t.entries| ensures Slot(t, i) {
      assert Slot(w, i);
    }
  }

  lemma OwnIsSound(w: World, p: Pointer, x: Object)
    requires Sound(w) && p in w.live && !Holds(w.entries, p) && w.live[p].owner != Sdk && x.owner != Proxy
    ensures Sound(w.(live := w.live[p := x]))
  {
    var t := w.(live := w.live[p := x]);
    forall i | 0 <= i < |t.entries| ensures Slot(t, i) {
      assert Slot(w, i);
    }
  }

  lemma GoneIsSound(w: World, p: Pointer)
    requires Sound(w) && Owns(w, Game, p)
    ensures Sound(Gone(w, p))
  {
    var t := Gone(w, p);
    forall i | 0 <= i < |t.entries| ensures Slot(t, i) {
      assert Slot(w, i);
    }
  }

  lemma PreparedIsSound(w: World, original: Pointer, creation: Option<Pointer>, copied: bool)
    requires Sound(w) && original in w.live && w.live[original].owner != Sdk && IsNew(w, creation)
    ensures Sound(Prepared(w, original, creation, copied))
  {
    if CanPrepare(w, original, creation, copied) {
      FreeIsNull(w.entries);
      LinkedIsSound(w, original, creation.value, SlotOf(w.entries, NULL));
    } else if creation.Some? {
      var x := Object(AuxOf(w.live[original].request), Sdk);
      var t := Gone(Made(w, creation.value, x), creation.value);
      assert t.live == w.live;
      assert forall i :: 0 <= i < |w.entries| && Slot(w, i) ==> Slot(t, i);
    }
  }

  lemma LinkedIsSound(w: World, original: Pointer, r: Pointer, k: nat)
    requires Sound(w) && original in w.live && w.live[original].owner != Sdk && !Holds(w.entries, original)
    requires r != NULL && r !in w.live && IsLegacy(w.live[original].request.kind)
    requires k < |w.entries| && w.entries[k].original == NULL
    ensures Sound(Linked(w, original, r, k))
  {
    var t := Linked(w, original, r, k);
    assert Owns(w, Game, original);
    forall i | 0 <= i < |t.entries| ensures Slot(t, i) {
      assert Slot(w, i);
    }
    forall i, j | 0 <= i < j < |t.entries| ensures Apart(t.entries[i], t.entries[j]) {
      assert Slot(w, i) && Slot(w, j);
      assert Apart(w.entries[i], w.entries[j]);
    }
    forall p | Owns(t, Proxy, p) ensures Holds(t.entries, p) {
      if p == original {
        assert t.entries[k].original == p;
      } else {
        var i :| 0 <= i < |w.entries| && w.entries[i].original == p;
        assert t.entries[i].original == p;
      }
    }
  }

  /** Taking out slot `k` leaves what slot `i` links alone. */
  lemma OthersStay(w: World, k: nat, i: nat)
    requires Sound(w) && k < |w.entries| && i < |w.entries| && i != k && w.entries[k] != EMPTY
    ensures Slot(w, k)
    ensures var e := w.entries[k];
            Tracks(w.entries[i], w.live[e.original := w.live[e.original].(owner := Game)] - {e.replacement})
  {
    hide Counted, Holds;
    assert Slot(w, i) && Slot(w, k);
    if i < k {
      assert Apart(w.entries[i], w.entries[k]);
    } else {
      assert Apart(w.entries[k], w.entries[i]);
    }
  }

  lemma CancelledIsSound(w: World, replacement: Pointer)
    requires Sound(w)
    ensures Sound(Cancelled(w, replacement))
  {
    var k := SlotFor(w.entries, replacement);
    if k < |w.entries| && replacement != NULL {
      var t := Cancelled(w, replacement);
      assert Slot(w, k);
      forall i | 0 <= i < |t.entries| ensures Slot(t, i) {
        if i != k {
          OthersStay(w, k, i);
        }
      }
      forall i, j | 0 <= i < j < |t.entries| ensures Apart(t.entries[i], t.entries[j]) {
        assert Apart(w.entries[i], w.entries[j]);
      }
      forall p | Owns(t, Proxy, p) ensures Holds(t.entries, p) {
        var i :| 0 <= i < |w.entries| && w.entries[i].original == p;
        assert t.entries[i].original == p;
      }
    }
  }

  /** A direct issue of what is in no slot makes it the SDK's. */
  lemma IssuedIsSound(w: World, p: Pointer, creation: Option<Pointer>, copied: bool, accepted: bool)
    requires Sound(w) && p in w.live && w.live[p].owner != Sdk && IsNew(w, creation)
    ensures Sound(Issued(w, p, creation, copied, accepted)) <==> !(accepted && Holds(w.entries, p))
  {
    var t := Prepared(w, p, creation, copied);
    PreparedIsSound(w, p, creation, copied);
    if CanPrepare(w, p, creation, copied) {
      CancelledIsSound(t, creation.value);
    } else if accepted {
      DirectIsSound(t, p);
    }
  }

  lemma DirectIsSound(w: World, p: Pointer)
    requires Sound(w) && p in w.live && w.live[p].owner != Sdk
    ensures Sound(Given(w, p, Sdk)) <==> !Holds(w.entries, p)
  {
    if Holds(w.entries, p) {
      var i :| 0 <= i < |w.entries| && w.entries[i].original == p;
      TakenIsUnsound(Given(w, p, Sdk), i);
    } else {
      OwnIsSound(w, p, w.live[p].(owner := Sdk));
    }
  }

  lemma DeliveredIsSound(w: World, m: Message)
    requires Sound(w)
    ensures Sound(Delivered(w, m)) <==> !Misreports(w, m)
  {
    if IsRestored(w, m) {
      CancelledIsSound(w, m.request);
    } else if m.kind == RESPONSE && m.request in w.live {
      PassedIsSound(w, m.request);
    } else if m.kind == RESPONSE && m.request != NULL {
      GoneIsNoWhere(w, m.request);
    }
  }

  /** The table holds live requests only. */
  lemma GoneIsNoWhere(w: World, p: Pointer)
    requires Sound(w) && p !in w.live && p != NULL
    ensures !Holds(w.entries, p) && SlotFor(w.entries, p) == |w.entries|
  {
    forall i | 0 <= i < |w.entries| ensures w.entries[i].original != p && w.entries[i].replacement != p {
      assert Slot(w, i);
    }
  }

  /** The game may have what is in no slot, and nothing else. */
  lemma PassedIsSound(w: World, p: Pointer)
    requires Sound(w) && p in w.live
    ensures Sound(Given(w, p, Game)) <==> !Holds(w.entries, p) && SlotFor(w.entries, p) == |w.entries|
  {
    var t := Given(w, p, Game);
    if Holds(w.entries, p) {
      var i :| 0 <= i < |w.entries| && w.entries[i].original == p;
      TakenIsUnsound(t, i);
    } else if SlotFor(w.entries, p) < |w.entries| {
      TakenIsUnsound(t, SlotFor(w.entries, p));
    } else {
      forall i | 0 <= i < |t.entries| ensures Slot(t, i) {
        assert Slot(w, i);
      }
    }
  }

  lemma ShutDownIsSound(w: World)
    requires Sound(w)
    ensures Sound(ShutDown(w))
    ensures forall i :: 0 <= i < PENDING_LIMIT ==> ShutDown(w).entries[i] == EMPTY
    ensures forall p :: p in ShutDown(w).live ==>
              p in w.live && w.live[p].owner == Game && ShutDown(w).live[p] == w.live[p]
  {
    var t := ShutDown(w);
    assert t.entries == Cleared(w, PENDING_LIMIT).entries;
    forall p | p in w.live && w.live[p].owner == Proxy ensures p !in Cleared(w, PENDING_LIMIT).live {
      ClearedTakesOriginals(w, p);
    }
    forall i | 0 <= i < PENDING_LIMIT ensures Slot(t, i) && t.entries[i] == EMPTY {
      assert Slot(w, i);
    }
  }

  lemma ClearedTakesOriginals(w: World, p: Pointer)
    requires Sound(w) && p in w.live && w.live[p].owner == Proxy
    ensures p !in Cleared(w, PENDING_LIMIT).live
  {
    assert w.entries[..PENDING_LIMIT] == w.entries;
    assert Holds(w.entries, p);
  }

  // ---------- Whole runs ----------

  /** One step of the world. */
  function Next(w: World, e: Event): (t: World)
    requires Sound(w) && Allowed(w, e) && !Harms(w, e)
    ensures Sound(t)
  {
    StepKeepsSoundExactlyWhen(w, e);
    Step(w, e)
  }

  ghost predicate Permitted(w: World, events: seq<Event>)
    requires Sound(w)
    decreases |events|
  {
    events == [] || (Allowed(w, events[0]) && !Harms(w, events[0]) && Permitted(Next(w, events[0]), events[1..]))
  }

  /** The world after a run. No run makes the table unsound: no live original or replacement is in two
      slots, the proxy holds exactly the originals in the table, and each pointer was destroyed as
      often as it was created, or once less while it is live. */
  function Run(w: World, events: seq<Event>): (t: World)
    requires Sound(w) && Permitted(w, events)
    ensures Sound(t)
    decreases |events|
  {
    if events == [] then w else Run(Next(w, events[0]), events[1..])
  }

  /** After any run, closing the SDK leaves nothing but the requests the game itself owns, as they
      were, and all that was created but for those has been destroyed exactly once. */
  lemma ClosingLeavesOnlyTheGames(events: seq<Event>)
    requires Permitted(Initial(), events)
    ensures var w := Run(Initial(), events);
            && (forall p :: p in ShutDown(w).live <==> Owns(w, Game, p))
            && (forall p :: ShutDown(w).created[p] == ShutDown(w).destroyed[p] + if Owns(w, Game, p) then 1 else 0)
  {
    WhatRemains(Run(Initial(), events));
  }

  lemma WhatRemains(w: World)
    requires Sound(w)
    ensures forall p :: p in ShutDown(w).live <==> Owns(w, Game, p)
    ensures forall p :: ShutDown(w).created[p] == ShutDown(w).destroyed[p] + if Owns(w, Game, p) then 1 else 0
  {
    ShutDownIsSound(w);
    forall p | Owns(w, Game, p) ensures p in ShutDown(w).live {
      GamesIsNotPending(w, p);
    }
    hide Cleared;
  }

  lemma GamesIsNotPending(w: World, p: Pointer)
    requires Sound(w) && Owns(w, Game, p)
    ensures p in Cleared(w, PENDING_LIMIT).live
  {
    assert w.entries[..PENDING_LIMIT] == w.entries;
    forall i | 0 <= i < PENDING_LIMIT ensures w.entries[i].original != p {
      assert Slot(w, i);
    }
  }

  /** Event `e` takes replacement `r` away from the SDK. */
  predicate Ends(e: Event, r: Pointer) {
    (e.Deliver? && e.message.kind == RESPONSE && e.message.request == r) || e == Uninitialize
  }

  /** Slot `i` links `original`, a live request, to `r`. */
  ghost predicate Links(w: World, i: nat, original: Pointer, request: Request, r: Pointer) {
    && original in w.live && w.live[original].request == request
    && i < |w.entries| && w.entries[i] == Pending(original, r, request.kind)
  }

  lemma StepKeepsLink(w: World, e: Event, i: nat, original: Pointer, request: Request, r: Pointer)
    requires Sound(w) && Allowed(w, e) && !Harms(w, e) && Links(w, i, original, request, r) && !Ends(e, r)
    ensures Links(Step(w, e), i, original, request, r)
  {
    hide Counted, Holds;
    assert Slot(w, i);
    match e
    case Issue(p, creation, copied, accepted) =>
      IssueKeepsLink(w, p, creation, copied, accepted, i, original, request, r);
    case Deliver(m) =>
      if IsRestored(w, m) {
        CancelKeepsLink(w, m.request, i, original, request, r);
      }
    case _ =>
  }

  lemma IssueKeepsLink(w: World, p: Pointer, creation: Option<Pointer>, copied: bool, accepted: bool, i: nat,
                       original: Pointer, request: Request, r: Pointer)
    requires Sound(w) && p in w.live && w.live[p].owner != Sdk && IsNew(w, creation)
    requires Links(w, i, original, request, r)
    requires !(accepted && Holds(w.entries, p))
    ensures Links(Issued(w, p, creation, copied, accepted), i, original, request, r)
  {
    hide Counted, Holds;
    assert Slot(w, i);
    if CanPrepare(w, p, creation, copied) {
      PreparedIsSound(w, p, creation, copied);
      PrepareKeepsLink(w, p, creation.value, i, original, request, r);
      CancelKeepsLink(Prepared(w, p, creation, copied), creation.value, i, original, request, r);
    }
  }

  lemma PrepareKeepsLink(w: World, other: Pointer, s: Pointer, i: nat, original: Pointer, request: Request, r: Pointer)
    requires Sound(w) && Links(w, i, original, request, r) && other in w.live && s !in w.live
    requires !Holds(w.entries, other) && Holds(w.entries, NULL)
    ensures Links(Linked(w, other, s, SlotOf(w.entries, NULL)), i, original, request, r)
  {
    assert Slot(w, i);
    FreeIsNull(w.entries);
  }

  lemma CancelKeepsLink(w: World, s: Pointer, i: nat, original: Pointer, request: Request, r: Pointer)
    requires Sound(w) && Links(w, i, original, request, r) && s != r
    ensures Links(Cancelled(w, s), i, original, request, r)
  {
    var k := SlotFor(w.entries, s);
    assert Slot(w, i);
    if k < |w.entries| && s != NULL {
      assert Slot(w, k);
    }
  }

  lemma {:induction false} RunKeepsLink(w: World, events: seq<Event>, i: nat, original: Pointer, request: Request,
                                        r: Pointer)
    requires Sound(w) && Permitted(w, events) && Links(w, i, original, request, r)
    requires forall e :: e in events ==> !Ends(e, r)
    ensures Links(Run(w, events), i, original, request, r)
    decreases |events|
  {
    hide Sound, Links, Step, Allowed;
    if events != [] {
      StepKeepsLink(w, events[0], i, original, request, r);
      RunKeepsLink(Next(w, events[0]), events[1..], i, original, request, r);
    }
  }

  /** A replacement is in one slot only. */
  lemma LinkIsFound(w: World, i: nat)
    requires Sound(w) && i < |w.entries| && w.entries[i] != EMPTY
    ensures SlotFor(w.entries, w.entries[i].replacement) == i
  {
    assert Slot(w, i);
    forall j | 0 <= j < i ensures w.entries[j].replacement != w.entries[i].replacement {
      assert Apart(w.entries[j], w.entries[i]);
    }
  }

  lemma LinkRestores(w: World, i: nat, original: Pointer, request: Request, r: Pointer, m: Message)
    requires Sound(w) && Links(w, i, original, request, r)
    requires m.kind == RESPONSE && IsAux(m.response) && m.request == r
    ensures Restored(w, m) == Message(RESPONSE, request.kind, original)
    ensures Delivered(w, m).live == (w.live - {r})[original := Object(request, Game)]
  {
    assert Slot(w, i);
    LinkIsFound(w, i);
  }

  /** Whatever happens in between, the response to an accepted replacement carries the request that it
      was made from and the type that request had, and gives that request back as it was. */
  lemma ResponsesComeHome(w: World, original: Pointer, creation: Option<Pointer>, copied: bool,
                          events: seq<Event>, m: Message)
    requires Sound(w) && Allowed(w, Issue(original, creation, copied, true))
    requires CanPrepare(w, original, creation, copied)
    requires Permitted(Next(w, Issue(original, creation, copied, true)), events)
    requires forall e :: e in events ==> !Ends(e, creation.value)
    requires m.kind == RESPONSE && IsAux(m.response) && m.request == creation.value
    ensures var last := Run(Next(w, Issue(original, creation, copied, true)), events);
            && Restored(last, m) == Message(RESPONSE, w.live[original].request.kind, original)
            && Delivered(last, m).live == (last.live - {m.request})[original := Object(w.live[original].request, Game)]
  {
    var request, r := w.live[original].request, creation.value;
    var t := Next(w, Issue(original, creation, copied, true));
    var i := SlotOf(w.entries, NULL);
    PreparedLinks(w, original, creation, copied);
    RunKeepsLink(t, events, i, original, request, r);
    hide Sound, Links, Permitted, Run, Delivered, Restored;
    LinkRestores(Run(t, events), i, original, request, r, m);
  }

  lemma PreparedLinks(w: World, original: Pointer, creation: Option<Pointer>, copied: bool)
    requires Sound(w) && original in w.live && IsNew(w, creation) && CanPrepare(w, original, creation, copied)
    ensures Links(Prepared(w, original, creation, copied), SlotOf(w.entries, NULL),
                  original, w.live[original].request, creation.value)
  {
    FreeIsNull(w.entries);
  }

  /** Exactly a speaker or microphone volume request that is not pending gets a replacement, if there is
      a free slot, the SDK creates one and the cookie, if any, can be copied: an auxiliary request for the
      same device, with the same cookies and level. Otherwise nothing is left behind. */
  lemma ReplacedExactlyWhen(w: World, p: Pointer, creation: Option<Pointer>, copied: bool)
    requires p in w.live && p != NULL && IsNew(w, creation)
    ensures var t, was := Prepared(w, p, creation, copied), w.live[p].request;
            var r := PreparedPointer(w, p, creation, copied);
            && (r != 0 <==>
                && (was.kind == 0x40 || was.kind == 0x3f) && (was.cookie == None || copied)
                && (forall i :: 0 <= i < |w.entries| ==> w.entries[i].original != p)
                && (exists i :: 0 <= i < |w.entries| && w.entries[i].original == 0)
                && creation.Some?)
            && if r != 0 then
                 && creation == Some(r) && r in t.live && t.live[r].owner == Sdk
                 && t.live[p := w.live[p]] - {r} == w.live && t.live[p] == Object(was, Proxy)
                 && var now := t.live[r].request;
                    && (was.kind == 0x40 ==> now.kind == 0x5e) && (was.kind == 0x3f ==> now.kind == 0x5d)
                    && now.cookie == was.cookie && now.vcookie == was.vcookie && now.level == was.level
               else t.live == w.live && t.entries == w.entries
  {
    if CanPrepare(w, p, creation, copied) {
      FreeIsNull(w.entries);
      assert creation.value !in w.live && creation.value != p;
    }
  }

  // ---------- A pending request is issued again ----------

  const SPEAKER: Request := Request(SPEAKER_LEGACY, None, NULL, 50)

  /** The world after the game created a legacy request at 1 and issued it, and the SDK took its
      replacement at 2. */
  function Waiting(): World {
    Next(Next(Initial(), Create(1, SPEAKER)), Issue(1, Some(2), true, true))
  }

  /** The game issues the request again before the response: prepare finds it in the table and refuses,
      and the proxy passes it to the SDK, which now has both the original and its replacement. */
  lemma ReissueSharesTheOriginal()
    ensures Allowed(Waiting(), Issue(1, None, true, true))
    ensures var w := Step(Waiting(), Issue(1, None, true, true));
            !Sound(w) && Owns(w, Sdk, 1) && Owns(w, Sdk, 2) && Holds(w.entries, 1)
  {
    assert Waiting().entries[0] == Pending(1, 2, SPEAKER_LEGACY);
    StepKeepsSoundExactlyWhen(Waiting(), Issue(1, None, true, true));
  }
}
