/** Every step and every run of the lifecycle: when the bridged table, the ember slots and the store agree. */
module LifecycleProofs {
  import opened Text
  import opened DataStorage
  import opened EmberInterface
  import opened Lifecycle

  // ---- One step: announcing an endpoint --------------------------------------------

  lemma DistinctTail(entries: seq<Entry>)
    requires Distinct(entries) && entries != []
    ensures Distinct(entries[1..])
    ensures forall e :: e in entries[1..] ==> e.matterEndpoint != entries[0].matterEndpoint
    ensures forall e :: e in entries <==> e == entries[0] || e in entries[1..]
  {
    var tail := entries[1..];
    assert entries == [entries[0]] + tail;
    assert forall i :: 0 <= i < |tail| ==> tail[i] == entries[i + 1];
  }

  lemma DistinctCons(head: Entry, tail: seq<Entry>)
    requires Distinct(tail) && forall e :: e in tail ==> e.matterEndpoint != head.matterEndpoint
    ensures Distinct([head] + tail)
  {
    var entries := [head] + tail;
    forall i, j | 0 <= i < j < |entries|
      ensures entries[i].matterEndpoint != entries[j].matterEndpoint
    {
      assert entries[j] == tail[j - 1];
    }
  }

  lemma {:induction false} EraseMappedSpec(entries: seq<Entry>, unid: string, id: nat)
    requires Distinct(entries)
    ensures Distinct(EraseMapped(entries, unid, id))
    ensures forall e :: e in EraseMapped(entries, unid, id) <==>
                        e in entries && !(e.address.unid == unid && e.matterEndpoint == id)
  {
    if entries == [] {
    } else {
      var head, tail := entries[0], entries[1..];
      DistinctTail(entries);
      if !(head.address.unid == unid && head.matterEndpoint == id) {
        EraseMappedSpec(tail, unid, id);
        DistinctCons(head, EraseMapped(tail, unid, id));
      }
    }
  }

  lemma {:induction false} InsertEntrySpec(entries: seq<Entry>, entry: Entry)
    ensures forall e :: e in InsertEntry(entries, entry) <==> e in entries || e == entry
    ensures Distinct(entries) && (forall e :: e in entries ==> e.matterEndpoint != entry.matterEndpoint) ==>
      Distinct(InsertEntry(entries, entry))
  {
    if entries == [] {
    } else if Less(entry.address.unid, entries[0].address.unid) {
      if Distinct(entries) && (forall e :: e in entries ==> e.matterEndpoint != entry.matterEndpoint) {
        DistinctCons(entry, entries);
      }
    } else {
      var head, tail := entries[0], entries[1..];
      assert entries == [head] + tail;
      InsertEntrySpec(tail, entry);
      if Distinct(entries) && (forall e :: e in entries ==> e.matterEndpoint != entry.matterEndpoint) {
        DistinctTail(entries);
        DistinctCons(head, InsertEntry(tail, entry));
      }
    }
  }

  lemma RegisterSpec(slots: Slots, id: nat)
    requires Aligned(slots) && InDynamicRange(id)
    ensures Register(slots, id - FIXED_ENDPOINT_COUNT, id) == slots[id - FIXED_ENDPOINT_COUNT := id]
  {
    var index := id - FIXED_ENDPOINT_COUNT;
    FirstIndexIsFirst(slots, id);
    if id in slots {
      assert DynamicIndex(slots, id) == index;
      assert id !in ClearSlot(slots, index);
    }
  }

  /** Among bridged endpoints, the one with a stored endpoint's id is that endpoint. */
  lemma IdNamesAddress(s: State, a: Address)
    requires Coherent(s) && Stored(s.store, a)
    ensures forall e :: e in s.entries ==> (e.matterEndpoint == s.store[EndpointKey(a)] <==> e.address == a)
  {
    forall e | e in s.entries
      ensures e.matterEndpoint == s.store[EndpointKey(a)] <==> e.address == a
    {
      assert Agrees(e, s.slots, s.store) && Stored(s.store, e.address);
    }
  }

  lemma BridgeEntries(s: State, a: Address, entry: Entry)
    requires Coherent(s) && Stored(s.store, a)
    requires entry.address == a && entry.matterEndpoint == s.store[EndpointKey(a)]
    ensures var es := InsertEntry(EraseMapped(s.entries, a.unid, entry.matterEndpoint), entry);
      && Distinct(es)
      && (forall e :: e in es <==> (e in s.entries && e.address != a) || e == entry)
  {
    IdNamesAddress(s, a);
    EraseMappedSpec(s.entries, a.unid, entry.matterEndpoint);
    InsertEntrySpec(EraseMapped(s.entries, a.unid, entry.matterEndpoint), entry);
  }

  lemma BridgeSlots(s: State, entries: seq<Entry>, slots: Slots, entry: Entry)
    requires Coherent(s) && entry in entries
    requires forall e :: e in s.entries && e.matterEndpoint != entry.matterEndpoint ==> e in entries
    requires InDynamicRange(entry.matterEndpoint) && entry.index == entry.matterEndpoint - FIXED_ENDPOINT_COUNT
    requires slots == s.slots[entry.index := entry.matterEndpoint]
    ensures Aligned(slots)
    ensures forall i :: 0 <= i < |slots| && slots[i] != INVALID ==> Holds(entries, slots[i])
  {
    forall i | 0 <= i < |slots| && slots[i] != INVALID
      ensures Holds(entries, slots[i])
    {
      if i != entry.index {
        assert s.slots[i] != INVALID;
        var e :| e in s.entries && e.matterEndpoint == s.slots[i];
        assert e in entries;
      }
    }
  }

  lemma CoherentAfterBridge(s: State, s': State, entry: Entry)
    requires Coherent(s) && Stored(s.store, entry.address)
    requires entry.matterEndpoint == s.store[EndpointKey(entry.address)]
    requires entry.index == entry.matterEndpoint - FIXED_ENDPOINT_COUNT
    requires s'.store == s.store && s'.last == s.last
    requires s'.slots == s.slots[entry.index := entry.matterEndpoint]
    requires Distinct(s'.entries)
    requires forall e :: e in s'.entries <==> (e in s.entries && e.address != entry.address) || e == entry
    ensures Coherent(s')
  {
    IdNamesAddress(s, entry.address);
    BridgeSlots(s, s'.entries, s'.slots, entry);
    forall e | e in s'.entries
      ensures Agrees(e, s'.slots, s'.store)
    {
      if e != entry {
        assert Agrees(e, s.slots, s.store) && e.index != entry.index;
      }
    }
  }

  /** Bridging an endpoint at its persisted id: other entries, other slots and the store are left alone. */
  lemma BridgeKeeps(s: State, a: Address, matterType: nat, online: bool)
    requires Coherent(s) && Stored(s.store, a)
    ensures var s' := Bridge(s, a, s.store[EndpointKey(a)], matterType, online);
      && Coherent(s')
      && (forall e :: e in s'.entries <==>
                      (e in s.entries && e.address != a) || e == NewEntry(a, s.store[EndpointKey(a)], matterType, online))
  {
    var entry := NewEntry(a, s.store[EndpointKey(a)], matterType, online);
    var s' := Bridge(s, a, entry.matterEndpoint, matterType, online);
    assert InDynamicRange(entry.matterEndpoint) && entry.index == entry.matterEndpoint - FIXED_ENDPOINT_COUNT;
    assert s'.slots == s.slots[entry.index := entry.matterEndpoint] by {
      RegisterSpec(s.slots, entry.matterEndpoint);
    }
    BridgeEntries(s, a, entry);
    CoherentAfterBridge(s, s', entry);
  }

  ghost predicate Reserved(store: Store, id: nat) {
    exists a :: Stored(store, a) && store[EndpointKey(a)] == id
  }

  /** The id of a persisted endpoint is in a slot exactly when the endpoint is bridged. */
  lemma StoredIdIsTaken(s: State, b: Address)
    requires Coherent(s) && Stored(s.store, b)
    ensures s.store[EndpointKey(b)] in s.slots <==> IsBridged(s.entries, b)
  {
    IdNamesAddress(s, b);
    if s.store[EndpointKey(b)] in s.slots {
      assert Holds(s.entries, s.store[EndpointKey(b)]);
    }
    if IsBridged(s.entries, b) {
      var e :| e in s.entries && e.address == b;
      assert Agrees(e, s.slots, s.store);
    }
  }

  /** What the allocator will pick is nobody's exactly when every absent endpoint's id is out of its reach. */
  lemma PickIsNobodys(s: State)
    requires Coherent(s) && HasRoom(s.slots)
    ensures InDynamicRange(PickedId(s)) && PickedId(s) !in s.slots
    ensures !Reserved(s.store, PickedId(s)) <==> OutOfReach(s)
  {
    NextAvailableIsFree(s.slots, s.last);
    forall b | Stored(s.store, b)
      ensures s.store[EndpointKey(b)] == PickedId(s) <==>
        !IsBridged(s.entries, b) && !FreeBefore(s.slots, s.last, s.store[EndpointKey(b)])
    {
      StoredIdIsTaken(s, b);
      if !IsBridged(s.entries, b) {
        PicksUnlessSooner(s.slots, s.last, s.store[EndpointKey(b)]);
      }
    }
  }

  /** Persisting an unreserved id for an endpoint the store does not know. */
  lemma PersistKeeps(s: State, a: Address, id: nat, last: nat)
    requires Coherent(s) && IsAddress(a) && EndpointKey(a) !in s.store
    requires InDynamicRange(id) && !Reserved(s.store, id)
    requires FIXED_ENDPOINT_COUNT - 1 <= last < MAX_ENDPOINT_COUNT
    ensures Coherent(s.(last := last, store := s.store[EndpointKey(a) := id]))
  {
    EndpointKeysInjective();
    var store' := s.store[EndpointKey(a) := id];
    forall b | Stored(store', b) && b != a
      ensures Stored(s.store, b) && store'[EndpointKey(b)] == s.store[EndpointKey(b)] && store'[EndpointKey(b)] != id
    {}
    assert SoundStore(store');
  }

  /** An announcement leaves every endpoint but its own as it was, and bridges its own. */
  lemma AddKeeps(s: State, a: Address, matterType: nat, online: bool, putOk: bool)
    requires Coherent(s) && IsAddress(a)
    requires Admissible(s, AddEndpoint(a, matterType, online, putOk))
    ensures var s' := Add(s, a, matterType, online, putOk);
      && Coherent(s')
      && EndpointKey(a) in s'.store
      && (forall e :: e in s'.entries <==>
                      (e in s.entries && e.address != a) || e == NewEntry(a, s'.store[EndpointKey(a)], matterType, online))
      && (forall b :: b != a && IsAddress(b) ==> Lookup(s'.store, EndpointKey(b)) == Lookup(s.store, EndpointKey(b)))
      && (EndpointKey(a) in s.store ==> s'.store == s.store)
  {
    EndpointKeysInjective();
    if EndpointKey(a) in s.store {
      BridgeKeeps(s, a, matterType, online);
    } else {
      var pick := NextAvailable(s.slots, s.last);
      PickIsNobodys(s);
      NextAvailableMemory(s.slots, s.last);
      PersistKeeps(s, a, pick.id, pick.last);
      BridgeKeeps(s.(last := pick.last, store := s.store[EndpointKey(a) := pick.id]), a, matterType, online);
    }
  }

  /** Conversely, an inadmissible announcement makes the stores disagree, at once. */
  lemma InadmissibleBreaks(s: State, a: Address, matterType: nat, online: bool, putOk: bool)
    requires Coherent(s) && IsAddress(a)
    requires !Admissible(s, AddEndpoint(a, matterType, online, putOk))
    ensures !Coherent(Add(s, a, matterType, online, putOk))
  {
    EndpointKeysInjective();
    NextAvailableIsFree(s.slots, s.last);
    var id := PickedId(s);
    var s' := Add(s, a, matterType, online, putOk);
    var entry := NewEntry(a, id, matterType, online);
    InsertEntrySpec(EraseMapped(s.entries, a.unid, id), entry);
    assert entry in s'.entries;
    if putOk {
      assert Stored(s'.store, a) && s'.store[EndpointKey(a)] == id;
      if id != INVALID {
        PickIsNobodys(s);
        var b :| Stored(s.store, b) && s.store[EndpointKey(b)] == id;
        assert Stored(s'.store, b) && s'.store[EndpointKey(b)] == id;
      }
    }
  }

  // ---- One step: removing a node, changing its state, and the rest -------------------

  lemma {:induction false} OfSpec(entries: seq<Entry>, unid: string)
    ensures forall e :: e in Of(entries, unid) <==> e in entries && e.address.unid == unid
  {
    if entries == [] {
    } else {
      assert entries == [entries[0]] + entries[1..];
      OfSpec(entries[1..], unid);
    }
  }

  lemma {:induction false} WithoutSpec(entries: seq<Entry>, unid: string)
    requires Distinct(entries)
    ensures Distinct(Without(entries, unid))
    ensures forall e :: e in Without(entries, unid) <==> e in entries && e.address.unid != unid
  {
    if entries == [] {
    } else {
      DistinctTail(entries);
      WithoutSpec(entries[1..], unid);
      if entries[0].address.unid != unid {
        DistinctCons(entries[0], Without(entries[1..], unid));
      }
    }
  }

  ghost predicate HasIndex(es: seq<Entry>, index: nat) {
    exists e :: e in es && e.index == index
  }

  ghost predicate HasKey(es: seq<Entry>, key: string) {
    exists e :: e in es && EndpointKey(e.address) == key
  }

  lemma {:induction false} ClearAllSpec(slots: Slots, es: seq<Entry>)
    ensures |ClearAll(slots, es)| == |slots|
    ensures forall i :: 0 <= i < |slots| ==>
      ClearAll(slots, es)[i] == if HasIndex(es, i) then INVALID else slots[i]
  {
    if es == [] {
    } else {
      var front, end := es[..|es| - 1], es[|es| - 1];
      assert es == front + [end];
      ClearAllSpec(slots, front);
      forall i: nat
        ensures HasIndex(es, i) <==> HasIndex(front, i) || end.index == i
      {
        if end.index == i {
          assert end in es;
        }
      }
    }
  }

  lemma {:induction false} ForgetAllSpec(store: Store, es: seq<Entry>)
    ensures forall key :: key in ForgetAll(store, es) <==> key in store && !HasKey(es, key)
    ensures forall key :: key in ForgetAll(store, es) ==> ForgetAll(store, es)[key] == store[key]
  {
    if es == [] {
    } else {
      var front, end := es[..|es| - 1], es[|es| - 1];
      assert es == front + [end];
      ForgetAllSpec(store, front);
      forall key
        ensures HasKey(es, key) <==> HasKey(front, key) || EndpointKey(end.address) == key
      {
        if EndpointKey(end.address) == key {
          assert end in es;
        }
      }
    }
  }

  /** What is left of the store: exactly the keys of no bridged endpoint of the node. */
  lemma RemoveStore(s: State, unid: string)
    requires Coherent(s)
    ensures forall a :: EndpointKey(a) in Remove(s, unid).store <==>
      EndpointKey(a) in s.store && !(a.unid == unid && IsBridged(s.entries, a))
    ensures forall g :: IsGroup(g) ==> Lookup(Remove(s, unid).store, GroupKey(g)) == Lookup(s.store, GroupKey(g))
    ensures forall key :: key in Remove(s, unid).store ==> key in s.store && Remove(s, unid).store[key] == s.store[key]
  {
    var gone := Of(s.entries, unid);
    OfSpec(s.entries, unid);
    ForgetAllSpec(s.store, gone);
    EndpointKeysInjective();
    FamiliesDisjoint();
    forall a
      ensures HasKey(gone, EndpointKey(a)) <==> a.unid == unid && IsBridged(s.entries, a)
    {
      if a.unid == unid && IsBridged(s.entries, a) {
        var e :| e in s.entries && e.address == a;
        assert e in gone;
      }
    }
    forall e | e in gone
      ensures IsAddress(e.address)
    {
      assert Agrees(e, s.slots, s.store);
    }
  }

  lemma RemoveSlots(s: State, unid: string)
    requires Coherent(s)
    ensures var slots' := Remove(s, unid).slots;
      && Aligned(slots')
      && (forall e :: e in s.entries && e.address.unid != unid ==>
            slots'[e.matterEndpoint - FIXED_ENDPOINT_COUNT] == e.matterEndpoint)
      && (forall i :: 0 <= i < |slots'| && slots'[i] != INVALID ==> Holds(Without(s.entries, unid), slots'[i]))
  {
    var gone := Of(s.entries, unid);
    var slots' := ClearAll(s.slots, gone);
    OfSpec(s.entries, unid);
    WithoutSpec(s.entries, unid);
    ClearAllSpec(s.slots, gone);
    forall e | e in s.entries && e.address.unid != unid
      ensures slots'[e.matterEndpoint - FIXED_ENDPOINT_COUNT] == e.matterEndpoint
    {
      forall f | f in gone
        ensures f.index != e.index
      {
        assert Agrees(e, s.slots, s.store) && Agrees(f, s.slots, s.store);
        assert Stored(s.store, e.address) && Stored(s.store, f.address);
      }
      assert Agrees(e, s.slots, s.store);
    }
    forall i | 0 <= i < |slots'| && slots'[i] != INVALID
      ensures Holds(Without(s.entries, unid), slots'[i])
    {
      var e :| e in s.entries && e.matterEndpoint == s.slots[i];
      assert Agrees(e, s.slots, s.store) && e.index == i;
      assert e !in gone;
    }
  }

  lemma RemoveKeeps(s: State, unid: string)
    requires Coherent(s)
    ensures Coherent(Remove(s, unid))
    ensures forall e :: e in Remove(s, unid).entries <==> e in s.entries && e.address.unid != unid
  {
    var s' := Remove(s, unid);
    RemoveStore(s, unid);
    RemoveSlots(s, unid);
    WithoutSpec(s.entries, unid);
    forall a | Stored(s'.store, a)
      ensures Stored(s.store, a) && s'.store[EndpointKey(a)] == s.store[EndpointKey(a)]
    {}
    forall e | e in s'.entries
      ensures Agrees(e, s'.slots, s'.store)
    {
      assert Agrees(e, s.slots, s.store);
    }
  }

  lemma {:induction false} SetReachableSpec(entries: seq<Entry>, unid: string, online: bool)
    ensures |SetReachable(entries, unid, online)| == |entries|
    ensures forall i :: 0 <= i < |entries| ==>
      SetReachable(entries, unid, online)[i] == WithReachable(entries[i], unid, online)
  {
    if entries == [] {
    } else {
      SetReachableSpec(entries[1..], unid, online);
    }
  }

  /** Two tables that differ in reachability only hold the same endpoints at the same ids. */
  lemma SameEndpoints(entries: seq<Entry>, es: seq<Entry>)
    requires |es| == |entries|
    requires forall i :: 0 <= i < |entries| ==> es[i].(reachable := entries[i].reachable) == entries[i]
    ensures forall id :: Holds(entries, id) ==> Holds(es, id)
    ensures forall a :: IsBridged(entries, a) ==> IsBridged(es, a)
  {
    forall id | Holds(entries, id)
      ensures Holds(es, id)
    {
      var i :| 0 <= i < |entries| && entries[i].matterEndpoint == id;
      assert es[i] in es;
    }
    forall a | IsBridged(entries, a)
      ensures IsBridged(es, a)
    {
      var i :| 0 <= i < |entries| && entries[i].address == a;
      assert es[i] in es;
    }
  }

  lemma ChangeKeeps(s: State, unid: string, online: bool)
    requires Coherent(s)
    ensures Coherent(Change(s, unid, online))
    ensures forall a :: IsBridged(Change(s, unid, online).entries, a) <==> IsBridged(s.entries, a)
  {
    var es := SetReachable(s.entries, unid, online);
    SetReachableSpec(s.entries, unid, online);
    SameEndpoints(s.entries, es);
    SameEndpoints(es, s.entries);
    forall e | e in es
      ensures Agrees(e, s.slots, s.store)
    {
      var i :| 0 <= i < |es| && es[i] == e;
      assert Agrees(s.entries[i], s.slots, s.store);
    }
  }

  /** Group writes to the shared store never disturb an endpoint mapping. */
  lemma GroupWriteKeeps(s: State, step: Step)
    requires Coherent(s) && WellFormed(step) && (step.PutGroup? || step.DeleteGroup?)
    ensures Coherent(Do(s, step))
    ensures forall a :: IsAddress(a) ==> Lookup(Do(s, step).store, EndpointKey(a)) == Lookup(s.store, EndpointKey(a))
    ensures step.PutGroup? ==> Lookup(Do(s, step).store, GroupKey(step.group)) == Some(step.unifyGroup)
    ensures step.DeleteGroup? ==> GroupKey(step.group) !in Do(s, step).store
  {
    FamiliesDisjoint();
    var s' := Do(s, step);
    forall a | IsAddress(a)
      ensures Lookup(s'.store, EndpointKey(a)) == Lookup(s.store, EndpointKey(a))
    {}
    assert forall a :: IsAddress(a) ==> (Stored(s'.store, a) <==> Stored(s.store, a));
    assert SoundStore(s'.store);
    forall e | e in s.entries
      ensures Agrees(e, s'.slots, s'.store)
    {
      assert Agrees(e, s.slots, s.store);
    }
  }

  // ---- Runs ------------------------------------------------------------------------

  /** One step from agreeing stores: they agree afterwards if and only if the step is admissible. */
  lemma StepCoherent(s: State, step: Step)
    requires Coherent(s) && WellFormed(step)
    ensures Coherent(Do(s, step)) <==> Admissible(s, step)
  {
    match step
    case AddEndpoint(a, matterType, online, putOk) =>
      if Admissible(s, step) {
        AddKeeps(s, a, matterType, online, putOk);
      } else {
        InadmissibleBreaks(s, a, matterType, online, putOk);
      }
    case RemoveNode(unid) => RemoveKeeps(s, unid);
    case ChangeState(unid, online) => ChangeKeeps(s, unid, online);
    case PutGroup(_, _) => GroupWriteKeeps(s, step);
    case DeleteGroup(_) => GroupWriteKeeps(s, step);
    case Restart =>
  }

  ghost predicate AllWellFormed(steps: seq<Step>) {
    forall i :: 0 <= i < |steps| ==> WellFormed(steps[i])
  }

  ghost predicate AlwaysCoherent(s: State, steps: seq<Step>) {
    forall i :: 0 <= i <= |steps| ==> Coherent(Run(s, steps[..i]))
  }

  ghost predicate AlwaysAdmissible(s: State, steps: seq<Step>) {
    forall i :: 0 <= i < |steps| ==> Admissible(Run(s, steps[..i]), steps[i])
  }

  lemma {:induction false} RunSnoc(s: State, steps: seq<Step>, step: Step)
    ensures Run(s, steps + [step]) == Do(Run(s, steps), step)
    decreases |steps|
  {
    if steps == [] {
      assert [step][1..] == [];
      assert Run(s, [step]) == Run(Do(s, step), []);
      assert steps + [step] == [step];
    } else {
      assert (steps + [step])[1..] == steps[1..] + [step];
      RunSnoc(Do(s, steps[0]), steps[1..], step);
    }
  }

  lemma RunStep(s: State, steps: seq<Step>, i: nat)
    requires i < |steps|
    ensures Run(s, steps[..i + 1]) == Do(Run(s, steps[..i]), steps[i])
  {
    assert steps[..i + 1] == steps[..i] + [steps[i]];
    RunSnoc(s, steps[..i], steps[i]);
  }

  /**
   * Every run of announcements, removals, state changes, group writes and restarts: the three
   * stores agree after each of its steps if and only if each first announcement was persisted,
   * found room, and came when no absent endpoint's id was next in the allocator's scan.
   */
  lemma RunCoherent(s: State, steps: seq<Step>)
    requires Coherent(s) && AllWellFormed(steps)
    ensures AlwaysCoherent(s, steps) <==> AlwaysAdmissible(s, steps)
  {
    if AlwaysAdmissible(s, steps) {
      forall i | 0 <= i <= |steps|
        ensures Coherent(Run(s, steps[..i]))
      {
        AdmissibleUpTo(s, steps, i);
      }
    }
    if AlwaysCoherent(s, steps) {
      forall i | 0 <= i < |steps|
        ensures Admissible(Run(s, steps[..i]), steps[i])
      {
        RunStep(s, steps, i);
        assert Coherent(Run(s, steps[..i])) && Coherent(Run(s, steps[..i + 1]));
        StepCoherent(Run(s, steps[..i]), steps[i]);
      }
    }
  }

  lemma {:induction false} AdmissibleUpTo(s: State, steps: seq<Step>, n: nat)
    requires Coherent(s) && AllWellFormed(steps) && AlwaysAdmissible(s, steps) && n <= |steps|
    ensures Coherent(Run(s, steps[..n]))
  {
    if n == 0 {
    } else {
      AdmissibleUpTo(s, steps, n - 1);
      RunStep(s, steps, n - 1);
      StepCoherent(Run(s, steps[..n - 1]), steps[n - 1]);
    }
  }
}
