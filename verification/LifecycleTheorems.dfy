/** What the agreement of the stores buys: inverse lookups, recovery after a restart, and no early reuse of ids. */
module LifecycleTheorems {
  import opened Text
  import opened DataStorage
  import opened EmberInterface
  import opened Lifecycle
  import opened LifecycleProofs

  // ---- The lookups -----------------------------------------------------------------

  lemma {:induction false} ByAddressSpec(entries: seq<Entry>, unid: string, endpoint: int)
    ensures match ByAddress(entries, unid, endpoint)
      case Some(e) => e in entries && e.address.unid == unid && e.address.endpoint == endpoint
      case None => forall e :: e in entries ==> !(e.address.unid == unid && e.address.endpoint == endpoint)
  {
    if entries == [] {
    } else {
      assert entries == [entries[0]] + entries[1..];
      ByAddressSpec(entries[1..], unid, endpoint);
    }
  }

  lemma {:induction false} ByMatterEndpointSpec(entries: seq<Entry>, id: nat)
    ensures match ByMatterEndpoint(entries, id)
      case Some(e) => e in entries && e.matterEndpoint == id
      case None => forall e :: e in entries ==> e.matterEndpoint != id
  {
    if entries == [] {
    } else {
      assert entries == [entries[0]] + entries[1..];
      ByMatterEndpointSpec(entries[1..], id);
    }
  }

  lemma OneEntryEach(s: State, e: Entry, f: Entry)
    requires Coherent(s) && e in s.entries && f in s.entries
    requires e.address == f.address || e.matterEndpoint == f.matterEndpoint
    ensures e == f
  {
    assert Agrees(e, s.slots, s.store) && Agrees(f, s.slots, s.store);
    var i :| 0 <= i < |s.entries| && s.entries[i] == e;
    var j :| 0 <= j < |s.entries| && s.entries[j] == f;
  }

  /** The two lookups find the same entry, whichever of its two names they are given. */
  lemma LookupsAreInverse(s: State, e: Entry)
    requires Coherent(s)
    ensures ByAddress(s.entries, e.address.unid, e.address.endpoint) == Some(e) <==> e in s.entries
    ensures ByMatterEndpoint(s.entries, e.matterEndpoint) == Some(e) <==> e in s.entries
  {
    ByAddressSpec(s.entries, e.address.unid, e.address.endpoint);
    ByMatterEndpointSpec(s.entries, e.matterEndpoint);
    if e in s.entries {
      var f := ByAddress(s.entries, e.address.unid, e.address.endpoint).value;
      assert f.address == e.address;
      OneEntryEach(s, e, f);
      OneEntryEach(s, e, ByMatterEndpoint(s.entries, e.matterEndpoint).value);
    }
  }

  /** The store holds exactly the bridged ids, and a slot is taken exactly by the entry with its id. */
  lemma ThreeStoresAgree(s: State, a: Address, index: nat)
    requires Complete(s) && IsAddress(a) && index < DYNAMIC_ENDPOINT_COUNT
    ensures Lookup(s.store, EndpointKey(a)) ==
      match ByAddress(s.entries, a.unid, a.endpoint) { case Some(e) => Some(e.matterEndpoint) case None => None }
    ensures s.slots[index] ==
      match ByMatterEndpoint(s.entries, index + FIXED_ENDPOINT_COUNT) {
        case Some(e) => e.matterEndpoint
        case None => INVALID
      }
  {
    ByAddressSpec(s.entries, a.unid, a.endpoint);
    ByMatterEndpointSpec(s.entries, index + FIXED_ENDPOINT_COUNT);
    match ByAddress(s.entries, a.unid, a.endpoint)
    case Some(e) =>
      assert Agrees(e, s.slots, s.store) && e.address == a;
    case None =>
      assert Stored(s.store, a) <==> EndpointKey(a) in s.store;
  }

  // ---- Runs without a restart ------------------------------------------------------

  /** With nothing persisted but what is bridged, all an announcement needs is room and a store that takes it. */
  ghost predicate Affordable(s: State, step: Step) {
    step.AddEndpoint? && EndpointKey(step.address) !in s.store ==> step.putOk && HasRoom(s.slots)
  }

  lemma AffordableIsAdmissible(s: State, step: Step)
    requires Complete(s)
    ensures Admissible(s, step) <==> Affordable(s, step)
  {}

  lemma AddComplete(s: State, a: Address, matterType: nat, online: bool, putOk: bool)
    requires Complete(s) && IsAddress(a)
    requires Admissible(s, AddEndpoint(a, matterType, online, putOk))
    ensures Complete(Add(s, a, matterType, online, putOk))
  {
    var s' := Add(s, a, matterType, online, putOk);
    AddKeeps(s, a, matterType, online, putOk);
    forall b | Stored(s'.store, b)
      ensures IsBridged(s'.entries, b)
    {
      if b == a {
        assert NewEntry(a, s'.store[EndpointKey(a)], matterType, online) in s'.entries;
      } else {
        assert Lookup(s'.store, EndpointKey(b)) == Lookup(s.store, EndpointKey(b));
        assert Stored(s.store, b) && IsBridged(s.entries, b);
        var e :| e in s.entries && e.address == b;
        assert e in s'.entries;
      }
    }
  }

  lemma RemoveComplete(s: State, unid: string)
    requires Complete(s)
    ensures Complete(Remove(s, unid))
  {
    var s' := Remove(s, unid);
    RemoveKeeps(s, unid);
    RemoveStore(s, unid);
    forall b | Stored(s'.store, b)
      ensures IsBridged(s'.entries, b)
    {
      assert Stored(s.store, b) && IsBridged(s.entries, b);
      var e :| e in s.entries && e.address == b;
      assert e in s'.entries;
    }
  }

  lemma GroupWriteComplete(s: State, step: Step)
    requires Complete(s) && WellFormed(step) && (step.PutGroup? || step.DeleteGroup?)
    ensures Complete(Do(s, step))
  {
    GroupWriteKeeps(s, step);
    forall b | Stored(Do(s, step).store, b)
      ensures IsBridged(s.entries, b)
    {
      assert Lookup(Do(s, step).store, EndpointKey(b)) == Lookup(s.store, EndpointKey(b));
    }
  }

  lemma StepComplete(s: State, step: Step)
    requires Complete(s) && WellFormed(step) && !step.Restart?
    ensures Complete(Do(s, step)) <==> Affordable(s, step)
  {
    AffordableIsAdmissible(s, step);
    match step
    case AddEndpoint(a, matterType, online, putOk) =>
      if Admissible(s, step) {
        AddComplete(s, a, matterType, online, putOk);
      } else {
        InadmissibleBreaks(s, a, matterType, online, putOk);
      }
    case RemoveNode(unid) => RemoveComplete(s, unid);
    case ChangeState(unid, online) => ChangeKeeps(s, unid, online);
    case _ => GroupWriteComplete(s, step);
  }

  ghost predicate NoRestart(steps: seq<Step>) {
    forall i :: 0 <= i < |steps| ==> !steps[i].Restart?
  }

  ghost predicate AlwaysComplete(s: State, steps: seq<Step>) {
    forall i :: 0 <= i <= |steps| ==> Complete(Run(s, steps[..i]))
  }

  ghost predicate AlwaysAffordable(s: State, steps: seq<Step>) {
    forall i :: 0 <= i < |steps| ==> Affordable(Run(s, steps[..i]), steps[i])
  }

  lemma {:induction false} CompleteUpTo(s: State, steps: seq<Step>, n: nat)
    requires Complete(s) && AllWellFormed(steps) && NoRestart(steps) && AlwaysAffordable(s, steps) && n <= |steps|
    ensures Complete(Run(s, steps[..n]))
  {
    if n == 0 {
    } else {
      CompleteUpTo(s, steps, n - 1);
      RunStep(s, steps, n - 1);
      StepComplete(Run(s, steps[..n - 1]), steps[n - 1]);
    }
  }

  /**
   * Every run without a restart: the bridged table, the slots and the store hold exactly the same
   * endpoints at the same ids after each step if and only if every first announcement was
   * persisted and found a free slot.
   */
  lemma RunComplete(s: State, steps: seq<Step>)
    requires Complete(s) && AllWellFormed(steps) && NoRestart(steps)
    ensures AlwaysComplete(s, steps) <==> AlwaysAffordable(s, steps)
  {
    if AlwaysAffordable(s, steps) {
      forall i | 0 <= i <= |steps|
        ensures Complete(Run(s, steps[..i]))
      {
        CompleteUpTo(s, steps, i);
      }
    }
    if AlwaysComplete(s, steps) {
      forall i | 0 <= i < |steps|
        ensures Affordable(Run(s, steps[..i]), steps[i])
      {
        RunStep(s, steps, i);
        assert Complete(Run(s, steps[..i])) && Complete(Run(s, steps[..i + 1]));
        StepComplete(Run(s, steps[..i]), steps[i]);
      }
    }
  }

  /** A bridge can start on a store exactly when its persisted ids are dynamic ids and distinct. */
  lemma StartsCoherent(store: Store)
    ensures Coherent(Boot(store)) <==> SoundStore(store)
  {}

  /** A bridge that starts with an empty store starts with agreeing stores. */
  lemma FreshStart()
    ensures Complete(Boot(map[]))
  {}

  // ---- Removal undoes addition -----------------------------------------------------

  lemma {:induction false} NothingOf(entries: seq<Entry>, unid: string, id: nat)
    requires forall f :: f in entries ==> f.address.unid != unid
    ensures EraseMapped(entries, unid, id) == entries
    ensures Of(entries, unid) == [] && Without(entries, unid) == entries
  {
    if entries == [] {
    } else {
      NothingOf(entries[1..], unid, id);
      assert entries == [entries[0]] + entries[1..];
    }
  }

  lemma OfCons(head: Entry, tail: seq<Entry>, unid: string)
    ensures Of([head] + tail, unid) == (if head.address.unid == unid then [head] else []) + Of(tail, unid)
    ensures Without([head] + tail, unid) == (if head.address.unid == unid then [] else [head]) + Without(tail, unid)
  {
    assert ([head] + tail)[1..] == tail;
  }

  lemma {:induction false} OnlyOf(entries: seq<Entry>, e: Entry)
    requires forall f :: f in entries ==> f.address.unid != e.address.unid
    ensures Of(InsertEntry(entries, e), e.address.unid) == [e]
    ensures Without(InsertEntry(entries, e), e.address.unid) == entries
  {
    if entries == [] || Less(e.address.unid, entries[0].address.unid) {
      NothingOf(entries, e.address.unid, 0);
      OfCons(e, entries, e.address.unid);
    } else {
      OnlyOf(entries[1..], e);
      OfCons(entries[0], InsertEntry(entries[1..], e), e.address.unid);
    }
  }

  lemma OneGone(slots: Slots, store: Store, e: Entry)
    ensures ClearAll(slots, [e]) == ClearSlot(slots, e.index)
    ensures ForgetAll(store, [e]) == store - {EndpointKey(e.address)}
  {
    assert [e][..0] == [];
  }

  /** Removing a node with one entry. */
  lemma RemoveOnly(entries: seq<Entry>, t: State, e: Entry)
    requires forall f :: f in entries ==> f.address.unid != e.address.unid
    requires t.entries == InsertEntry(entries, e)
    ensures var s' := Remove(t, e.address.unid);
      && s'.entries == entries && s'.last == t.last
      && s'.slots == ClearSlot(t.slots, e.index)
      && s'.store == t.store - {EndpointKey(e.address)}
  {
    OnlyOf(entries, e);
    OneGone(t.slots, t.store, e);
  }

  lemma FreshId(s: State, id: nat)
    requires Coherent(s) && HasRoom(s.slots) && id == PickedId(s)
    ensures InDynamicRange(id) && s.slots[id - FIXED_ENDPOINT_COUNT] == INVALID
  {
    NextAvailableIsFree(s.slots, s.last);
    assert s.slots[id - FIXED_ENDPOINT_COUNT] in s.slots;
  }

  lemma AddUnpersisted(s: State, entry: Entry, added: State)
    requires EndpointKey(entry.address) !in s.store
    requires entry == NewEntry(entry.address, PickedId(s), entry.matterType, entry.reachable)
    requires added == Add(s, entry.address, entry.matterType, entry.reachable, true)
    ensures added.entries == InsertEntry(EraseMapped(s.entries, entry.address.unid, entry.matterEndpoint), entry)
    ensures added.slots == Register(s.slots, entry.index, entry.matterEndpoint)
    ensures added.store == s.store[EndpointKey(entry.address) := entry.matterEndpoint]
    ensures added.last == NextAvailable(s.slots, s.last).last
  {}

  lemma ClearedAgain(slots: Slots, id: nat)
    requires Aligned(slots) && InDynamicRange(id) && slots[id - FIXED_ENDPOINT_COUNT] == INVALID
    ensures ClearSlot(Register(slots, IndexOf(id), id), IndexOf(id)) == slots
  {
    RegisterSpec(slots, id);
    assert IndexOf(id) == id - FIXED_ENDPOINT_COUNT;
  }

  lemma RemovedAgain(s: State, added: State, entry: Entry)
    requires forall e :: e in s.entries ==> e.address.unid != entry.address.unid
    requires Aligned(s.slots) && InDynamicRange(entry.matterEndpoint) && entry.index == IndexOf(entry.matterEndpoint)
    requires s.slots[entry.matterEndpoint - FIXED_ENDPOINT_COUNT] == INVALID && EndpointKey(entry.address) !in s.store
    requires added.entries == InsertEntry(s.entries, entry)
    requires added.slots == Register(s.slots, entry.index, entry.matterEndpoint)
    requires added.store == s.store[EndpointKey(entry.address) := entry.matterEndpoint]
    ensures var s' := Remove(added, entry.address.unid);
      s'.entries == s.entries && s'.slots == s.slots && s'.store == s.store && s'.last == added.last
  {
    RemoveOnly(s.entries, added, entry);
    ClearedAgain(s.slots, entry.matterEndpoint);
    assert added.store - {EndpointKey(entry.address)} == s.store;
  }

  /**
   * Announcing the first endpoint of a node, unknown to the store, and then removing the node leaves the table, the
   * slots and the store as they were; only the allocator remembers, so the id is not handed
   * out again at once.
   */
  lemma RemovalUndoesAddition(s: State, a: Address, matterType: nat, online: bool)
    requires Coherent(s) && EndpointKey(a) !in s.store && HasRoom(s.slots)
    requires forall e :: e in s.entries ==> e.address.unid != a.unid
    ensures var s' := Remove(Add(s, a, matterType, online, true), a.unid);
      && s'.entries == s.entries && s'.slots == s.slots && s'.store == s.store
      && s'.last == NextAvailable(s.slots, s.last).last
  {
    var entry := NewEntry(a, PickedId(s), matterType, online);
    var added := Add(s, a, matterType, online, true);
    FreshId(s, entry.matterEndpoint);
    AddUnpersisted(s, entry, added);
    NothingOf(s.entries, a.unid, entry.matterEndpoint);
    RemovedAgain(s, added, entry);
  }

  // ---- Restart ---------------------------------------------------------------------

  /** The endpoint was announced since the last restart. */
  ghost predicate Announced(steps: seq<Step>, a: Address) {
    exists i :: 0 <= i < |steps| && AnnouncedAt(steps, a, i)
  }

  ghost predicate AnnouncedAt(steps: seq<Step>, a: Address, i: nat)
    requires i < |steps|
  {
    steps[i].AddEndpoint? && steps[i].address == a && forall j :: i < j < |steps| ==> !steps[j].Restart?
  }

  lemma AnnouncedSnoc(steps: seq<Step>, step: Step, a: Address)
    ensures Announced(steps + [step], a) <==>
      !step.Restart? && ((step.AddEndpoint? && step.address == a) || Announced(steps, a))
  {
    var more := steps + [step];
    if Announced(more, a) {
      var i :| 0 <= i < |more| && AnnouncedAt(more, a, i);
      if i < |steps| {
        assert !more[|steps|].Restart?;
        assert forall j :: i < j < |steps| ==> steps[j] == more[j];
        assert AnnouncedAt(steps, a, i);
      }
    }
    if !step.Restart? && Announced(steps, a) {
      var i :| 0 <= i < |steps| && AnnouncedAt(steps, a, i);
      assert AnnouncedAt(more, a, i);
    }
    if step.AddEndpoint? && step.address == a {
      assert AnnouncedAt(more, a, |steps|);
    }
  }

  /** No node with an endpoint the store knows is removed. */
  ghost predicate Spares(known: Store, step: Step) {
    step.RemoveNode? ==> forall a :: Stored(known, a) ==> a.unid != step.unid
  }

  /** Otherwise announcements, removals, state changes, group writes and further restarts may come in any order. */
  ghost predicate SparesKnown(known: Store, steps: seq<Step>) {
    forall i :: 0 <= i < |steps| ==> Spares(known, steps[i])
  }

  /** Every endpoint announced is one the store knew from the start. */
  ghost predicate OnlyKnown(store: Store, steps: seq<Step>) {
    forall i :: 0 <= i < |steps| && steps[i].AddEndpoint? ==> Stored(store, steps[i].address)
  }

  ghost predicate IdsStay(before: Store, after: Store) {
    forall a :: Stored(before, a) ==> Lookup(after, EndpointKey(a)) == Lookup(before, EndpointKey(a))
  }

  /** Which known endpoints one step bridges, and that it keeps their persisted ids. */
  lemma RecoveryStep(known: Store, s: State, step: Step)
    requires Coherent(s) && WellFormed(step) && Admissible(s, step) && Spares(known, step) && IdsStay(known, s.store)
    ensures Coherent(Do(s, step)) && IdsStay(known, Do(s, step).store)
    ensures forall a :: Stored(known, a) ==> (IsBridged(Do(s, step).entries, a) <==>
      !step.Restart? && ((step.AddEndpoint? && step.address == a) || IsBridged(s.entries, a)))
    ensures forall a :: Stored(Do(s, step).store, a) ==> Stored(s.store, a) || (step.AddEndpoint? && step.address == a)
  {
    StepCoherent(s, step);
    match step
    case AddEndpoint(a, matterType, online, putOk) =>
      AddKeeps(s, a, matterType, online, putOk);
      AddBridges(s, Do(s, step), NewEntry(a, Do(s, step).store[EndpointKey(a)], matterType, online));
    case RemoveNode(unid) => RemoveSpares(known, s, unid);
    case ChangeState(unid, online) => ChangeKeeps(s, unid, online);
    case Restart =>
    case _ => GroupWriteKeeps(s, step);
  }

  lemma RemoveSpares(known: Store, s: State, unid: string)
    requires Coherent(s) && IdsStay(known, s.store) && Spares(known, RemoveNode(unid))
    ensures IdsStay(known, Remove(s, unid).store)
    ensures forall a :: Stored(known, a) ==> (IsBridged(Remove(s, unid).entries, a) <==> IsBridged(s.entries, a))
    ensures forall a :: Stored(Remove(s, unid).store, a) ==> Stored(s.store, a)
  {
    RemoveStore(s, unid);
    RemoveKeeps(s, unid);
    forall a | Stored(known, a) && IsBridged(s.entries, a)
      ensures IsBridged(Remove(s, unid).entries, a)
    {
      var e :| e in s.entries && e.address == a;
      assert e in Remove(s, unid).entries;
    }
  }

  lemma AddBridges(s: State, s': State, entry: Entry)
    requires forall e :: e in s'.entries <==> (e in s.entries && e.address != entry.address) || e == entry
    ensures forall a :: IsBridged(s'.entries, a) <==> entry.address == a || IsBridged(s.entries, a)
  {
    forall a
      ensures IsBridged(s'.entries, a) <==> entry.address == a || IsBridged(s.entries, a)
    {
      if entry.address == a {
        assert entry in s'.entries;
      } else if IsBridged(s.entries, a) {
        var e :| e in s.entries && e.address == a;
        assert e in s'.entries;
      }
    }
  }

  /** After a start and such a run, exactly the known endpoints announced since the last restart are bridged. */
  lemma {:induction false} RecoveryRun(known: Store, store: Store, steps: seq<Step>)
    requires SoundStore(store) && IdsStay(known, store)
    requires AllWellFormed(steps) && SparesKnown(known, steps) && AlwaysAdmissible(Boot(store), steps)
    ensures var s := Run(Boot(store), steps);
      && Coherent(s) && IdsStay(known, s.store)
      && (forall a :: Stored(known, a) ==> (IsBridged(s.entries, a) <==> Announced(steps, a)))
      && (OnlyKnown(store, steps) ==> forall a :: Stored(s.store, a) ==> Stored(store, a))
    decreases |steps|
  {
    if steps == [] {
      StartsCoherent(store);
    } else {
      var n := |steps| - 1;
      var front, step := steps[..n], steps[n];
      assert steps == front + [step];
      AdmissiblePrefix(Boot(store), steps, n);
      RecoveryRun(known, store, front);
      RunStep(Boot(store), steps, n);
      assert steps[..n + 1] == steps;
      RecoveryStep(known, Run(Boot(store), front), step);
      forall a
        ensures Announced(steps, a) <==>
          !step.Restart? && ((step.AddEndpoint? && step.address == a) || Announced(front, a))
      {
        AnnouncedSnoc(front, step, a);
      }
    }
  }

  lemma AdmissiblePrefix(s: State, steps: seq<Step>, n: nat)
    requires AlwaysAdmissible(s, steps) && n <= |steps|
    ensures AlwaysAdmissible(s, steps[..n])
  {
    forall i | 0 <= i < n
      ensures Admissible(Run(s, steps[..n][..i]), steps[..n][i])
    {
      assert steps[..n][..i] == steps[..i];
    }
  }

  /** Announcements of known endpoints are always admissible: they need nothing from the allocator. */
  lemma {:induction false} KnownIsAdmissible(store: Store, steps: seq<Step>)
    requires SoundStore(store) && AllWellFormed(steps) && SparesKnown(store, steps) && OnlyKnown(store, steps)
    ensures AlwaysAdmissible(Boot(store), steps)
    decreases |steps|
  {
    if steps == [] {
    } else {
      var n := |steps| - 1;
      var front := steps[..n];
      KnownIsAdmissible(store, front);
      RecoveryRun(store, store, front);
      forall i | 0 <= i <= n
        ensures Admissible(Run(Boot(store), steps[..i]), steps[i])
      {
        if i < n {
          assert front[..i] == steps[..i] && front[i] == steps[i];
        } else if steps[n].AddEndpoint? {
          assert Stored(store, steps[n].address);
        }
      }
    }
  }

  ghost predicate BridgedAt(entries: seq<Entry>, a: Address, id: nat) {
    exists e :: e in entries && e.address == a && e.matterEndpoint == id
  }

  /** A store that knows one endpoint only. */
  lemma OnlyOneKnown(store: Store, a: Address, id: nat)
    requires Stored(store, a) && store[EndpointKey(a)] == id
    ensures var known := map[EndpointKey(a) := id];
      IdsStay(known, store) && forall b :: Stored(known, b) <==> b == a
  {
    EndpointKeysInjective();
  }

  lemma ComesBackAt(s: State, a: Address, id: nat)
    requires Coherent(s) && EndpointKey(a) in s.store
    ensures BridgedAt(s.entries, a, id) <==> IsBridged(s.entries, a) && s.store[EndpointKey(a)] == id
  {
    if IsBridged(s.entries, a) {
      var e :| e in s.entries && e.address == a;
      assert Agrees(e, s.slots, s.store);
    }
    if BridgedAt(s.entries, a, id) {
      var e :| e in s.entries && e.address == a && e.matterEndpoint == id;
      assert Agrees(e, s.slots, s.store);
    }
  }

  /**
   * Whatever comes back after a start on any sound store comes back at its persisted id, among
   * newcomers, state changes, group writes, restarts and removals of other nodes, as long as
   * each newcomer's announcement is admissible.
   */
  lemma RestartKeepsIds(store: Store, steps: seq<Step>, a: Address, id: nat)
    requires SoundStore(store) && AllWellFormed(steps) && AlwaysAdmissible(Boot(store), steps)
    requires Stored(store, a)
    requires forall i :: 0 <= i < |steps| && steps[i].RemoveNode? ==> steps[i].unid != a.unid
    ensures BridgedAt(Run(Boot(store), steps).entries, a, id) <==> Announced(steps, a) && store[EndpointKey(a)] == id
  {
    OnlyOneKnown(store, a, store[EndpointKey(a)]);
    RecoveryRun(map[EndpointKey(a) := store[EndpointKey(a)]], store, steps);
    ComesBackAt(Run(Boot(store), steps), a, id);
  }

  /**
   * Restart recovery: announcing persisted endpoints, in any order and any number of times each,
   * with state changes, group writes and further restarts in between, bridges exactly those
   * announced since the last restart, each at its persisted id. The stores agree throughout, and
   * in full exactly when none is missing.
   */
  lemma RestartRecovers(store: Store, steps: seq<Step>)
    requires SoundStore(store) && AllWellFormed(steps)
    requires SparesKnown(store, steps) && OnlyKnown(store, steps)
    ensures var after := Run(Boot(store), steps);
      && Coherent(after)
      && (forall a, id :: BridgedAt(after.entries, a, id) <==>
            Stored(store, a) && store[EndpointKey(a)] == id && Announced(steps, a))
      && (Complete(after) <==> forall a :: Stored(store, a) ==> Announced(steps, a))
  {
    KnownIsAdmissible(store, steps);
    RecoveryRun(store, store, steps);
    var after := Run(Boot(store), steps);
    forall a, id
      ensures BridgedAt(after.entries, a, id) <==>
        Stored(store, a) && store[EndpointKey(a)] == id && Announced(steps, a)
    {
      if BridgedAt(after.entries, a, id) {
        var e :| e in after.entries && e.address == a && e.matterEndpoint == id;
        assert Agrees(e, after.slots, after.store);
        assert Stored(after.store, a);
      }
      if Stored(store, a) {
        ComesBackAt(after, a, id);
      }
    }
  }

  /**
   * So every earlier endpoint that is announced again is bridged as before; and if nothing was
   * missing before and all of it is announced again, the endpoint-to-id map is the earlier one.
   */
  lemma RestartRestores(before: State, steps: seq<Step>)
    requires Coherent(before) && AllWellFormed(steps)
    requires SparesKnown(before.store, steps) && OnlyKnown(before.store, steps)
    requires forall e :: e in before.entries ==> Announced(steps, e.address)
    ensures var after := Run(Boot(before.store), steps);
      && (forall a, id :: BridgedAt(before.entries, a, id) ==> BridgedAt(after.entries, a, id))
      && (Complete(before) ==>
            && Complete(after)
            && forall a, id :: BridgedAt(after.entries, a, id) <==> BridgedAt(before.entries, a, id))
  {
    RestartRecovers(before.store, steps);
    forall a, id | BridgedAt(before.entries, a, id)
      ensures Stored(before.store, a) && before.store[EndpointKey(a)] == id && Announced(steps, a)
    {
      var e :| e in before.entries && e.address == a && e.matterEndpoint == id;
      assert Agrees(e, before.slots, before.store);
    }
    if Complete(before) {
      forall a | Stored(before.store, a)
        ensures Announced(steps, a) && BridgedAt(before.entries, a, before.store[EndpointKey(a)])
      {
        var e :| e in before.entries && e.address == a;
        assert Agrees(e, before.slots, before.store);
      }
    }
  }

  /** A first announcement to an empty table gets the first dynamic id. */
  lemma FirstAnnouncement(store: Store, a: Address)
    requires EndpointKey(a) !in store
    ensures var s := Do(Boot(store), AddEndpoint(a, 0, true, true));
      && s.entries == [NewEntry(a, FIXED_ENDPOINT_COUNT, 0, true)]
      && s.store == store[EndpointKey(a) := FIXED_ENDPOINT_COUNT]
  {
    assert FIXED_ENDPOINT_COUNT !in EmptySlots();
    assert PickedId(Boot(store)) == FIXED_ENDPOINT_COUNT;
  }

  /** Two entries in the order of the map. */
  function InOrder(e: Entry, f: Entry): seq<Entry> {
    if Less(e.address.unid, f.address.unid) then [e, f] else [f, e]
  }

  lemma KnownAfterNewcomer(first: State, known: Address, newcomer: Address)
    requires known.unid != newcomer.unid
    requires first.entries == [NewEntry(newcomer, FIXED_ENDPOINT_COUNT, 0, true)]
    requires Lookup(first.store, EndpointKey(known)) == Some(FIXED_ENDPOINT_COUNT)
    ensures Do(first, AddEndpoint(known, 0, true, true)).entries ==
      InOrder(NewEntry(known, FIXED_ENDPOINT_COUNT, 0, true), NewEntry(newcomer, FIXED_ENDPOINT_COUNT, 0, true))
  {
    var e := NewEntry(known, FIXED_ENDPOINT_COUNT, 0, true);
    assert EraseMapped(first.entries, known.unid, FIXED_ENDPOINT_COUNT) == first.entries;
    assert first.entries[1..] == [] && InsertEntry([], e) == [e];
  }

  lemma FirstIsComplete(known: Address)
    requires IsAddress(known)
    ensures Complete(Do(Boot(map[]), AddEndpoint(known, 0, true, true)))
  {
    FreshStart();
    assert HasRoom(EmptySlots()) by {
      assert FIXED_ENDPOINT_COUNT !in EmptySlots();
    }
    StepComplete(Boot(map[]), AddEndpoint(known, 0, true, true));
  }

  /**
   * Why the order matters: a new endpoint announced first takes the id persisted for an old one.
   * The shared id is then looked up as whichever of the two has the smaller unid.
   */
  lemma RestartOrderMatters(known: Address, newcomer: Address)
    requires IsAddress(known) && IsAddress(newcomer) && known.unid != newcomer.unid
    ensures
      var before := Do(Boot(map[]), AddEndpoint(known, 0, true, true));
      var after := Do(Do(Boot(before.store), AddEndpoint(newcomer, 0, true, true)), AddEndpoint(known, 0, true, true));
      && Complete(before)
      && after.entries ==
           InOrder(NewEntry(known, FIXED_ENDPOINT_COUNT, 0, true), NewEntry(newcomer, FIXED_ENDPOINT_COUNT, 0, true))
      && ByMatterEndpoint(after.entries, FIXED_ENDPOINT_COUNT) ==
           (if Less(known.unid, newcomer.unid) then ByAddress(after.entries, known.unid, known.endpoint)
            else ByAddress(after.entries, newcomer.unid, newcomer.endpoint))
      && !Coherent(after)
  {
    EndpointKeyInjective(known, newcomer);
    FirstIsComplete(known);
    FirstAnnouncement(map[], known);
    var before := Do(Boot(map[]), AddEndpoint(known, 0, true, true));
    FirstAnnouncement(before.store, newcomer);
    var first := Do(Boot(before.store), AddEndpoint(newcomer, 0, true, true));
    KnownAfterNewcomer(first, known, newcomer);
    var after := Do(first, AddEndpoint(known, 0, true, true));
    assert after.entries[0].matterEndpoint == after.entries[1].matterEndpoint;
  }

  // ---- The allocator over runs -----------------------------------------------------

  lemma {:induction false} MemoryGrows(s: State, steps: seq<Step>)
    requires NoRestart(steps) && FIXED_ENDPOINT_COUNT - 1 <= s.last < MAX_ENDPOINT_COUNT
    ensures s.last <= Run(s, steps).last < MAX_ENDPOINT_COUNT
    decreases |steps|
  {
    if steps == [] {
    } else {
      NextAvailableMemory(s.slots, s.last);
      MemoryGrows(Do(s, steps[0]), steps[1..]);
    }
  }

  /**
   * The id `PickedId(s)` was handed out by the upward scan. However the bridge runs on without a
   * restart, releases included, a later pick is a larger id, unless every id above the
   * allocator's memory is taken by then.
   */
  lemma NoEarlyReuse(s: State, first: Step, steps: seq<Step>)
    requires FIXED_ENDPOINT_COUNT - 1 <= s.last < MAX_ENDPOINT_COUNT && NoRestart(steps)
    requires first.AddEndpoint? && EndpointKey(first.address) !in s.store
    requires PickedId(s) > s.last && PickedId(s) != INVALID
    ensures var t := Run(Do(s, first), steps);
      (PickedId(t) > PickedId(s) && PickedId(t) != INVALID)
      || (forall k :: t.last < k < MAX_ENDPOINT_COUNT ==> k in t.slots)
  {
    NextAvailableMemory(s.slots, s.last);
    NextAvailableIsFree(s.slots, s.last);
    FirstFreeIsFirst(s.slots, s.last + 1);
    var s' := Do(s, first);
    assert s'.last == PickedId(s);
    MemoryGrows(s', steps);
    var t := Run(s', steps);
    NextAvailableMemory(t.slots, t.last);
  }
}
