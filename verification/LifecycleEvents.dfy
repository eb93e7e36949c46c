/** What each event of a node leaves in the bridged table and tells the listeners, field by field. */
module LifecycleEvents {
  import opened Text
  import opened DataStorage
  import opened EmberInterface
  import opened Lifecycle
  import opened LifecycleProofs

  /**
   * The notifications sent since `before` are of one kind and of one node: each is of an entry of
   * the table, every entry of the node has one, and none comes twice.
   */
  ghost predicate Told(before: seq<Event>, after: seq<Event>, update: Update, entries: seq<Entry>, unid: string) {
    && before <= after
    && (forall k :: |before| <= k < |after| ==>
          after[k].update == update && after[k].entry in entries && after[k].entry.address.unid == unid)
    && (forall e :: e in entries && e.address.unid == unid ==> exists k :: |before| <= k < |after| && after[k].entry == e)
    && (forall k, m :: |before| <= k < m < |after| ==> after[k].entry != after[m].entry)
  }

  lemma {:induction false} OfDistinct(entries: seq<Entry>, unid: string)
    requires Distinct(entries)
    ensures Distinct(Of(entries, unid))
  {
    if entries == [] {
    } else {
      DistinctTail(entries);
      OfDistinct(entries[1..], unid);
      OfSpec(entries[1..], unid);
      if entries[0].address.unid == unid {
        DistinctCons(entries[0], Of(entries[1..], unid));
      } else {
        assert [] + Of(entries[1..], unid) == Of(entries[1..], unid);
      }
    }
  }

  lemma NotifiedIsTold(before: seq<Event>, update: Update, entries: seq<Entry>, unid: string)
    requires Distinct(entries)
    ensures Told(before, before + Notify(update, Of(entries, unid)), update, entries, unid)
  {
    var es := Of(entries, unid);
    var after := before + Notify(update, es);
    OfSpec(entries, unid);
    OfDistinct(entries, unid);
    forall k | |before| <= k < |after|
      ensures after[k] == Event(update, es[k - |before|]) && after[k].entry in es
    {}
    forall e | e in entries && e.address.unid == unid
      ensures exists k :: |before| <= k < |after| && after[k].entry == e
    {
      var i :| 0 <= i < |es| && es[i] == e;
      assert after[|before| + i].entry == e;
    }
    forall k, m | |before| <= k < m < |after|
      ensures after[k].entry != after[m].entry
    {
      assert es[k - |before|].matterEndpoint != es[m - |before|].matterEndpoint;
    }
  }

  // ---- Announcements ---------------------------------------------------------------

  /** The entry stands for the endpoint, at its persisted id, with this device type and reachability. */
  ghost predicate RecordsEndpoint(e: Entry, a: Address, store: Store, matterType: nat, online: bool) {
    && e.address == a
    && EndpointKey(a) in store && e.matterEndpoint == store[EndpointKey(a)]
    && e.index + FIXED_ENDPOINT_COUNT == e.matterEndpoint
    && e.matterType == matterType && e.reachable == online
  }

  /**
   * After an admissible announcement the table holds, beside the entries of all other endpoints
   * as they were, exactly one entry that records the announcement. The listeners heard twice of
   * it: that it was added, not reachable yet, and then its state.
   */
  lemma AnnouncementMeans(s: State, a: Address, matterType: nat, online: bool, putOk: bool)
    requires Coherent(s) && IsAddress(a)
    requires Admissible(s, AddEndpoint(a, matterType, online, putOk))
    ensures var s' := Add(s, a, matterType, online, putOk);
      && s' == Do(s, AddEndpoint(a, matterType, online, putOk))
      && (forall e :: e in s'.entries <==>
            (e in s.entries && e.address != a) || RecordsEndpoint(e, a, s'.store, matterType, online))
      && |s'.log| == |s.log| + 2 && s.log <= s'.log
      && s'.log[|s.log|].update == NodeAdded && s'.log[|s.log| + 1].update == NodeStateChanged
      && RecordsEndpoint(s'.log[|s.log|].entry, a, s'.store, matterType, false)
      && RecordsEndpoint(s'.log[|s.log| + 1].entry, a, s'.store, matterType, online)
  {
    var s' := Add(s, a, matterType, online, putOk);
    AddKeeps(s, a, matterType, online, putOk);
    var entry := NewEntry(a, s'.store[EndpointKey(a)], matterType, online);
    assert Agrees(entry, s'.slots, s'.store);
    OnlyRecord(entry, a, s'.store, matterType, online);
    AddTells(s, a, matterType, online, putOk);
  }

  lemma OnlyRecord(entry: Entry, a: Address, store: Store, matterType: nat, online: bool)
    requires RecordsEndpoint(entry, a, store, matterType, online)
    ensures forall e :: RecordsEndpoint(e, a, store, matterType, online) <==> e == entry
  {}

  lemma AddTells(s: State, a: Address, matterType: nat, online: bool, putOk: bool)
    ensures var entry := NewEntry(a, Chosen(s, a, putOk).0, matterType, online);
      Add(s, a, matterType, online, putOk).log ==
        s.log + [Event(NodeAdded, entry.(reachable := false)), Event(NodeStateChanged, entry)]
  {}

  // ---- Removals --------------------------------------------------------------------

  /** A removal tells of every entry of the node, as it was, and takes exactly those away. */
  lemma RemovalMeans(s: State, unid: string)
    requires Coherent(s)
    ensures var s' := Remove(s, unid);
      && s' == Do(s, RemoveNode(unid))
      && (forall e :: e in s'.entries <==> e in s.entries && e.address.unid != unid)
      && Told(s.log, s'.log, NodeDeleted, s.entries, unid)
  {
    RemoveKeeps(s, unid);
    NotifiedIsTold(s.log, NodeDeleted, s.entries, unid);
  }

  // ---- State changes ---------------------------------------------------------------

  /** A state change gives every entry of the node the reachability it was given, and tells of each as it then is. */
  lemma StateChangeMeans(s: State, unid: string, online: bool)
    requires Coherent(s)
    ensures var s' := Change(s, unid, online);
      && s' == Do(s, ChangeState(unid, online))
      && |s'.entries| == |s.entries|
      && (forall i :: 0 <= i < |s.entries| ==>
            s'.entries[i] ==
              if s.entries[i].address.unid == unid then s.entries[i].(reachable := online) else s.entries[i])
      && Told(s.log, s'.log, NodeStateChanged, s'.entries, unid)
  {
    ChangeKeeps(s, unid, online);
    SetReachableSpec(s.entries, unid, online);
    NotifiedIsTold(s.log, NodeStateChanged, Change(s, unid, online).entries, unid);
  }
}
