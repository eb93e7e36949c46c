/** The bridged table keeps the order of the multimap, and what that decides when an id is held twice. */
module TableOrder {
  import opened Text
  import opened DataStorage
  import opened Lifecycle
  import opened LifecycleProofs

  /** No entry comes before one with a smaller unid. */
  ghost predicate Ordered(entries: seq<Entry>) {
    forall i, j :: 0 <= i < j < |entries| ==> !Less(entries[j].address.unid, entries[i].address.unid)
  }

  ghost predicate NotBelow(head: Entry, entries: seq<Entry>) {
    forall e :: e in entries ==> !Less(e.address.unid, head.address.unid)
  }

  lemma OrderedCons(head: Entry, tail: seq<Entry>)
    ensures Ordered([head] + tail) <==> Ordered(tail) && NotBelow(head, tail)
  {
    var entries := [head] + tail;
    assert forall i :: 0 <= i < |tail| ==> tail[i] == entries[i + 1];
    if Ordered(entries) {
      forall e | e in tail
        ensures !Less(e.address.unid, head.address.unid)
      {
        var j :| 0 <= j < |tail| && tail[j] == e;
        assert entries[j + 1] == e && entries[0] == head;
      }
    }
    if Ordered(tail) && NotBelow(head, tail) {
      forall i, j | 0 <= i < j < |entries|
        ensures !Less(entries[j].address.unid, entries[i].address.unid)
      {
        assert entries[j] == tail[j - 1];
      }
    }
  }

  lemma Cons(entries: seq<Entry>)
    requires entries != []
    ensures entries == [entries[0]] + entries[1..]
  {}

  lemma {:induction false} InsertKeepsOrder(entries: seq<Entry>, e: Entry)
    requires Ordered(entries)
    ensures Ordered(InsertEntry(entries, e))
  {
    if entries == [] {
    } else {
      var head, tail := entries[0], entries[1..];
      Cons(entries);
      OrderedCons(head, tail);
      if Less(e.address.unid, head.address.unid) {
        AllAbove(e, head, tail);
        OrderedCons(e, entries);
      } else {
        InsertKeepsOrder(tail, e);
        InsertEntrySpec(tail, e);
        OrderedCons(head, InsertEntry(tail, e));
      }
    }
  }

  lemma AllAbove(e: Entry, head: Entry, tail: seq<Entry>)
    requires Less(e.address.unid, head.address.unid) && NotBelow(head, tail)
    ensures NotBelow(e, [head] + tail)
  {
    forall f | f in [head] + tail
      ensures !Less(f.address.unid, e.address.unid)
    {
      if Less(f.address.unid, e.address.unid) {
        LessIsTransitive(f.address.unid, e.address.unid, head.address.unid);
        LessIsTotal(e.address.unid, head.address.unid);
        LessIsTotal(head.address.unid, head.address.unid);
      }
    }
  }

  lemma {:induction false} EraseKeepsOrder(entries: seq<Entry>, unid: string, id: nat)
    requires Ordered(entries)
    ensures Ordered(EraseMapped(entries, unid, id))
    ensures forall e :: e in EraseMapped(entries, unid, id) ==> e in entries
  {
    if entries == [] {
    } else {
      var head, tail := entries[0], entries[1..];
      Cons(entries);
      OrderedCons(head, tail);
      EraseKeepsOrder(tail, unid, id);
      OrderedCons(head, EraseMapped(tail, unid, id));
    }
  }

  lemma {:induction false} RemovalKeepsOrder(entries: seq<Entry>, unid: string)
    requires Ordered(entries)
    ensures Ordered(Without(entries, unid))
    ensures forall e :: e in Without(entries, unid) ==> e in entries
  {
    if entries == [] {
    } else {
      var head, tail := entries[0], entries[1..];
      Cons(entries);
      OrderedCons(head, tail);
      RemovalKeepsOrder(tail, unid);
      OrderedCons(head, Without(tail, unid));
      assert [] + Without(tail, unid) == Without(tail, unid);
    }
  }

  lemma BridgeKeepsOrder(s: State, a: Address, id: nat, matterType: nat, online: bool)
    requires Ordered(s.entries)
    ensures Ordered(Bridge(s, a, id, matterType, online).entries)
  {
    EraseKeepsOrder(s.entries, a.unid, id);
    InsertKeepsOrder(EraseMapped(s.entries, a.unid, id), NewEntry(a, id, matterType, online));
  }

  lemma StepKeepsOrder(s: State, step: Step)
    requires Ordered(s.entries)
    ensures Ordered(Do(s, step).entries)
  {
    match step
    case AddEndpoint(a, matterType, online, putOk) =>
      var (id, chosen) := Chosen(s, a, putOk);
      assert chosen.entries == s.entries;
      BridgeKeepsOrder(chosen, a, id, matterType, online);
    case RemoveNode(unid) => RemovalKeepsOrder(s.entries, unid);
    case ChangeState(unid, online) => SetReachableSpec(s.entries, unid, online);
    case _ =>
  }

  lemma {:induction false} RunKeepsOrder(s: State, steps: seq<Step>)
    requires Ordered(s.entries)
    ensures Ordered(Run(s, steps).entries)
    decreases |steps|
  {
    if steps == [] {
    } else {
      StepKeepsOrder(s, steps[0]);
      RunKeepsOrder(Do(s, steps[0]), steps[1..]);
    }
  }

  lemma {:induction false} FoundIsLeast(entries: seq<Entry>, id: nat)
    requires Ordered(entries)
    ensures match ByMatterEndpoint(entries, id)
      case Some(e) =>
        && e in entries && e.matterEndpoint == id
        && forall f :: f in entries && f.matterEndpoint == id ==> !Less(f.address.unid, e.address.unid)
      case None => !Holds(entries, id)
  {
    if entries == [] {
    } else {
      var head, tail := entries[0], entries[1..];
      Cons(entries);
      OrderedCons(head, tail);
      FoundIsLeast(tail, id);
      LessIsTotal(head.address.unid, head.address.unid);
    }
  }

  /**
   * After any run at all since start-up, sound or not: the lookup by Matter endpoint finds an
   * entry exactly when one has the id, and of several it finds one with the smallest unid.
   */
  lemma LookupTakesSmallestUnid(store: Store, steps: seq<Step>, id: nat)
    ensures var entries := Run(Boot(store), steps).entries;
      match ByMatterEndpoint(entries, id)
      case Some(e) =>
        && e in entries && e.matterEndpoint == id
        && forall f :: f in entries && f.matterEndpoint == id ==> !Less(f.address.unid, e.address.unid)
      case None => !Holds(entries, id)
  {
    RunKeepsOrder(Boot(store), steps);
    FoundIsLeast(Run(Boot(store), steps).entries, id);
  }
}
