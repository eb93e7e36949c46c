/** `matter_node_state_monitor`: the event handlers, each proved to be a run of lifecycle steps. */
module NodeStateMonitor {
  import opened Text
  import opened DataStorage
  import opened EmberInterface
  import opened Lifecycle
  import opened LifecycleProofs
  import opened LifecycleEvents
  import opened LifecycleTheorems
  import opened DeviceTypeSelection
  import opened SelectionTheorems
  import opened ClusterInteractor

  /** The clusters stand in the order the unordered map yields them. */
  datatype Endpoint = Endpoint(number: nat, clusters: seq<UnifyCluster>)

  datatype Node = Node(unid: string, online: bool, endpoints: seq<Endpoint>)

  // ---- Which endpoints are bridged --------------------------------------------------

  predicate Ignorable(c: UnifyCluster) {
    c.name == "Groups" || c.name == "NameAndLocation"
  }

  /** Only the first cluster is looked at. */
  predicate OnlyGroupsOrName(clusters: seq<UnifyCluster>)
    requires clusters != []
  {
    |clusters| <= 2 && Ignorable(clusters[0])
  }

  function KnownClusters(tr: Translator, clusters: seq<UnifyCluster>): nat {
    if clusters == [] then 0
    else
      var last := clusters[|clusters| - 1];
      KnownClusters(tr, clusters[..|clusters| - 1])
      + (if last.attributes != [] && Find(tr.unifyClusters, last.name).Some? then 1 else 0)
  }

  /** The count is a `uint8_t`. */
  predicate Skipped(tr: Translator, clusters: seq<UnifyCluster>)
    requires clusters != []
  {
    OnlyGroupsOrName(clusters) || KnownClusters(tr, clusters) % 0x100 == 0
  }

  /** The Matter device type an endpoint is bridged as, if it is. */
  ghost function Bridgeable(tr: Translator, env: Surroundings, clusters: seq<UnifyCluster>): Option<nat>
    requires clusters != []
  {
    if Skipped(tr, clusters) then None else MatterType(tr, Built(tr, env, clusters))
  }

  /** The handler looks at the first cluster of every endpoint, and the mapping at the rest of those not skipped. */
  ghost predicate Workable(tr: Translator, env: Surroundings, node: Node) {
    forall ep :: ep in node.endpoints ==>
      ep.clusters != [] && (!Skipped(tr, ep.clusters) ==> Mappable(tr, Built(tr, env, ep.clusters)))
  }

  lemma {:induction false} KnownAreCounted(tr: Translator, clusters: seq<UnifyCluster>)
    ensures KnownClusters(tr, clusters) <= |clusters|
    ensures KnownClusters(tr, clusters) == 0 <==>
      forall c :: c in clusters ==> c.attributes == [] || c.name !in tr.unifyClusters
  {
    if clusters == [] {
    } else {
      var front, last := clusters[..|clusters| - 1], clusters[|clusters| - 1];
      assert clusters == front + [last];
      KnownAreCounted(tr, front);
    }
  }

  /**
   * An endpoint with at most 255 clusters is left out exactly when it has one or two of which the
   * first is Groups or NameAndLocation, when none of its clusters has attributes and a known name,
   * or when no device type conforms to what is built from them.
   */
  lemma BridgedWhen(tr: Translator, env: Surroundings, clusters: seq<UnifyCluster>)
    requires 0 < |clusters| <= 255
    ensures Bridgeable(tr, env, clusters).None? <==>
      || (|clusters| <= 2 && (clusters[0].name == "Groups" || clusters[0].name == "NameAndLocation"))
      || (forall c :: c in clusters ==> c.attributes == [] || c.name !in tr.unifyClusters)
      || (forall dt :: dt in tr.deviceTypes ==> !Conforms(tr, Built(tr, env, clusters), dt.clusters))
    ensures Bridgeable(tr, env, clusters).Some? ==>
      Bridgeable(tr, env, clusters) == MatterType(tr, Built(tr, env, clusters))
  {
    KnownAreCounted(tr, clusters);
    SelectedConform(tr, Built(tr, env, clusters));
  }

  /** What is decided for each endpoint of a node. */
  ghost function Decisions(tr: Translator, env: Surroundings, endpoints: seq<Endpoint>): (ds: seq<Option<nat>>)
    requires forall ep :: ep in endpoints ==> ep.clusters != []
    ensures |ds| == |endpoints| && forall i :: 0 <= i < |ds| ==> ds[i] == Bridgeable(tr, env, endpoints[i].clusters)
  {
    if endpoints == [] then []
    else
      assert endpoints[|endpoints| - 1] in endpoints;
      Decisions(tr, env, endpoints[..|endpoints| - 1]) + [Bridgeable(tr, env, endpoints[|endpoints| - 1].clusters)]
  }

  /** The lifecycle steps of the first n endpoints of an added node. */
  ghost function StepsOf(node: Node, decisions: seq<Option<nat>>, putOk: seq<bool>, n: nat): seq<Step>
    requires |putOk| == |decisions| == |node.endpoints| && n <= |node.endpoints|
  {
    if n == 0 then []
    else
      var before := StepsOf(node, decisions, putOk, n - 1);
      match decisions[n - 1]
      case Some(matterType) =>
        before + [AddEndpoint(Address(node.unid, node.endpoints[n - 1].number), matterType, node.online, putOk[n - 1])]
      case None => before
  }

  /** Announcing a node with a proper unid and endpoint numbers is a run of well-formed steps. */
  lemma {:induction false} StepsOfNode(node: Node, decisions: seq<Option<nat>>, putOk: seq<bool>, n: nat)
    requires |putOk| == |decisions| == |node.endpoints| && n <= |node.endpoints|
    requires !IsFabricNumeral(node.unid) && forall ep :: ep in node.endpoints ==> ep.number < 256
    ensures AllWellFormed(StepsOf(node, decisions, putOk, n)) && NoRestart(StepsOf(node, decisions, putOk, n))
  {
    if n == 0 {
    } else {
      StepsOfNode(node, decisions, putOk, n - 1);
      assert node.endpoints[n - 1] in node.endpoints;
    }
  }

  // ---- A whole node ----------------------------------------------------------------

  /** One of the first n endpoints of the node, decided to be bridged, has this address. */
  ghost predicate Covers(node: Node, decisions: seq<Option<nat>>, n: nat, a: Address)
    requires |decisions| == |node.endpoints| && n <= |node.endpoints|
  {
    exists i :: 0 <= i < n && decisions[i].Some? && a == Address(node.unid, node.endpoints[i].number)
  }

  /** The entry records one of those endpoints, with its decided type and the node's state. */
  ghost predicate RecordsOne(e: Entry, node: Node, decisions: seq<Option<nat>>, n: nat, store: Store)
    requires |decisions| == |node.endpoints| && n <= |node.endpoints|
  {
    exists i :: 0 <= i < n && decisions[i].Some?
      && RecordsEndpoint(e, Address(node.unid, node.endpoints[i].number), store, decisions[i].value, node.online)
  }

  ghost predicate DistinctNumbers(node: Node) {
    forall i, j :: 0 <= i < j < |node.endpoints| ==> node.endpoints[i].number != node.endpoints[j].number
  }

  lemma RecordedNext(e: Entry, node: Node, decisions: seq<Option<nat>>, n: nat, store: Store, store': Store)
    requires 0 < n <= |node.endpoints| == |decisions| && DistinctNumbers(node) && decisions[n - 1].Some?
    requires var a := Address(node.unid, node.endpoints[n - 1].number);
      forall b :: b != a && b.unid == node.unid && b.endpoint < 256 ==>
        Lookup(store', EndpointKey(b)) == Lookup(store, EndpointKey(b))
    requires forall ep :: ep in node.endpoints ==> ep.number < 256
    ensures RecordsOne(e, node, decisions, n, store') <==>
      RecordsOne(e, node, decisions, n - 1, store)
      || RecordsEndpoint(e, Address(node.unid, node.endpoints[n - 1].number), store', decisions[n - 1].value, node.online)
  {
    forall i | 0 <= i < n - 1 && decisions[i].Some?
      ensures var a := Address(node.unid, node.endpoints[i].number);
        RecordsEndpoint(e, a, store', decisions[i].value, node.online) <==>
        RecordsEndpoint(e, a, store, decisions[i].value, node.online)
    {
      assert node.endpoints[i] in node.endpoints;
      var a := Address(node.unid, node.endpoints[i].number);
      assert Lookup(store', EndpointKey(a)) == Lookup(store, EndpointKey(a));
    }
  }

  lemma AdmissibleBefore(s: State, node: Node, decisions: seq<Option<nat>>, putOk: seq<bool>, n: nat)
    requires |putOk| == |decisions| == |node.endpoints| && 0 < n <= |node.endpoints|
    requires AlwaysAdmissible(s, StepsOf(node, decisions, putOk, n))
    ensures AlwaysAdmissible(s, StepsOf(node, decisions, putOk, n - 1))
  {
    var before, steps := StepsOf(node, decisions, putOk, n - 1), StepsOf(node, decisions, putOk, n);
    AdmissiblePrefix(s, steps, |before|);
    assert steps[..|before|] == before;
  }

  lemma NoneMore(node: Node, decisions: seq<Option<nat>>, n: nat, store: Store)
    requires 0 < n <= |node.endpoints| == |decisions| && decisions[n - 1].None?
    ensures forall a :: Covers(node, decisions, n, a) <==> Covers(node, decisions, n - 1, a)
    ensures forall e :: RecordsOne(e, node, decisions, n, store) <==> RecordsOne(e, node, decisions, n - 1, store)
  {}

  /**
   * Announcing a node, when each announcement is admissible: each endpoint decided to be bridged
   * is recorded with its decided type, the node's reachability and its persisted id, and every
   * other endpoint's entry stays as it was.
   */
  lemma {:induction false} NodeAnnounced(s: State, node: Node, decisions: seq<Option<nat>>, putOk: seq<bool>, n: nat)
    requires |putOk| == |decisions| == |node.endpoints| && n <= |node.endpoints| && DistinctNumbers(node)
    requires !IsFabricNumeral(node.unid) && forall ep :: ep in node.endpoints ==> ep.number < 256
    requires Coherent(s) && AlwaysAdmissible(s, StepsOf(node, decisions, putOk, n))
    ensures var s' := Run(s, StepsOf(node, decisions, putOk, n));
      && Coherent(s')
      && forall e :: e in s'.entries <==>
           (e in s.entries && !Covers(node, decisions, n, e.address)) || RecordsOne(e, node, decisions, n, s'.store)
  {
    if n == 0 {
    } else {
      AdmissibleBefore(s, node, decisions, putOk, n);
      NodeAnnounced(s, node, decisions, putOk, n - 1);
      var here := Run(s, StepsOf(node, decisions, putOk, n - 1));
      match decisions[n - 1]
      case None =>
        NoneMore(node, decisions, n, here.store);
      case Some(matterType) =>
        OneMore(s, here, node, decisions, putOk, n);
    }
  }

  lemma LastStep(s: State, node: Node, decisions: seq<Option<nat>>, putOk: seq<bool>, n: nat, step: Step)
    requires |putOk| == |decisions| == |node.endpoints| && 0 < n <= |node.endpoints|
    requires decisions[n - 1].Some? && AlwaysAdmissible(s, StepsOf(node, decisions, putOk, n))
    requires step ==
      AddEndpoint(Address(node.unid, node.endpoints[n - 1].number), decisions[n - 1].value, node.online, putOk[n - 1])
    ensures var here := Run(s, StepsOf(node, decisions, putOk, n - 1));
      Admissible(here, step) && Run(s, StepsOf(node, decisions, putOk, n)) == Do(here, step)
  {
    var before, steps := StepsOf(node, decisions, putOk, n - 1), StepsOf(node, decisions, putOk, n);
    assert steps == before + [step] && steps[..|before|] == before && steps[|before|] == step;
    RunSnoc(s, before, step);
  }

  lemma CoversNext(node: Node, decisions: seq<Option<nat>>, n: nat, a: Address)
    requires 0 < n <= |node.endpoints| == |decisions| && decisions[n - 1].Some?
    ensures Covers(node, decisions, n, a) <==>
      Covers(node, decisions, n - 1, a) || a == Address(node.unid, node.endpoints[n - 1].number)
  {}

  lemma RecordedElsewhere(e: Entry, node: Node, decisions: seq<Option<nat>>, n: nat, store: Store)
    requires 0 < n <= |node.endpoints| == |decisions| && DistinctNumbers(node)
    requires RecordsOne(e, node, decisions, n - 1, store)
    ensures e.address != Address(node.unid, node.endpoints[n - 1].number)
  {}

  lemma OneMore(s: State, here: State, node: Node, decisions: seq<Option<nat>>, putOk: seq<bool>, n: nat)
    requires |putOk| == |decisions| == |node.endpoints| && 0 < n <= |node.endpoints| && DistinctNumbers(node)
    requires !IsFabricNumeral(node.unid) && forall ep :: ep in node.endpoints ==> ep.number < 256
    requires decisions[n - 1].Some?
    requires here == Run(s, StepsOf(node, decisions, putOk, n - 1)) && Coherent(here)
    requires AlwaysAdmissible(s, StepsOf(node, decisions, putOk, n))
    requires forall e :: e in here.entries <==>
      (e in s.entries && !Covers(node, decisions, n - 1, e.address)) || RecordsOne(e, node, decisions, n - 1, here.store)
    ensures var s' := Run(s, StepsOf(node, decisions, putOk, n));
      && Coherent(s')
      && forall e :: e in s'.entries <==>
           (e in s.entries && !Covers(node, decisions, n, e.address)) || RecordsOne(e, node, decisions, n, s'.store)
  {
    var a, matterType, ok := Address(node.unid, node.endpoints[n - 1].number), decisions[n - 1].value, putOk[n - 1];
    assert node.endpoints[n - 1] in node.endpoints;
    LastStep(s, node, decisions, putOk, n, AddEndpoint(a, matterType, node.online, ok));
    AddKeeps(here, a, matterType, node.online, ok);
    AnnouncementMeans(here, a, matterType, node.online, ok);
    OneMoreEntry(s.entries, here, Add(here, a, matterType, node.online, ok), node, decisions, n);
  }

  lemma OneMoreEntry(entries: seq<Entry>, here: State, s': State, node: Node, decisions: seq<Option<nat>>, n: nat)
    requires 0 < n <= |node.endpoints| == |decisions| && DistinctNumbers(node) && decisions[n - 1].Some?
    requires !IsFabricNumeral(node.unid) && forall ep :: ep in node.endpoints ==> ep.number < 256
    requires forall e :: e in here.entries <==>
      (e in entries && !Covers(node, decisions, n - 1, e.address)) || RecordsOne(e, node, decisions, n - 1, here.store)
    requires var a := Address(node.unid, node.endpoints[n - 1].number);
      && (forall e :: e in s'.entries <==>
            (e in here.entries && e.address != a)
            || RecordsEndpoint(e, a, s'.store, decisions[n - 1].value, node.online))
      && forall b :: b != a && IsAddress(b) ==> Lookup(s'.store, EndpointKey(b)) == Lookup(here.store, EndpointKey(b))
    ensures forall e :: e in s'.entries <==>
      (e in entries && !Covers(node, decisions, n, e.address)) || RecordsOne(e, node, decisions, n, s'.store)
  {
    forall e
      ensures e in s'.entries <==>
        (e in entries && !Covers(node, decisions, n, e.address)) || RecordsOne(e, node, decisions, n, s'.store)
    {
      CoversNext(node, decisions, n, e.address);
      RecordedNext(e, node, decisions, n, here.store, s'.store);
      if RecordsOne(e, node, decisions, n - 1, here.store) {
        RecordedElsewhere(e, node, decisions, n, here.store);
      }
    }
  }

  // ---- The order of the clusters -----------------------------------------------------

  /**
   * Whether an endpoint is ignored depends on the order its clusters come in exactly when it has
   * two of them and just one is a Groups or NameAndLocation cluster.
   */
  lemma IgnoringDependsOnOrder(clusters: seq<UnifyCluster>)
    requires clusters != []
    ensures (forall others :: multiset(others) == multiset(clusters) && others != [] ==>
               (OnlyGroupsOrName(others) <==> OnlyGroupsOrName(clusters)))
      <==> (|clusters| == 2 ==> (Ignorable(clusters[0]) <==> Ignorable(clusters[1])))
  {
    if |clusters| == 2 {
      Swapped(clusters);
    }
    if |clusters| == 2 ==> (Ignorable(clusters[0]) <==> Ignorable(clusters[1])) {
      forall others | multiset(others) == multiset(clusters) && others != []
        ensures OnlyGroupsOrName(others) <==> OnlyGroupsOrName(clusters)
      {
        IgnoringSame(clusters, others);
      }
    }
  }

  lemma Swapped(clusters: seq<UnifyCluster>)
    requires |clusters| == 2
    ensures multiset([clusters[1], clusters[0]]) == multiset(clusters)
    ensures OnlyGroupsOrName([clusters[1], clusters[0]]) <==> Ignorable(clusters[1])
  {
    assert clusters == [clusters[0], clusters[1]];
  }

  lemma IgnoringSame(clusters: seq<UnifyCluster>, others: seq<UnifyCluster>)
    requires clusters != [] && others != [] && multiset(others) == multiset(clusters)
    requires |clusters| == 2 ==> (Ignorable(clusters[0]) <==> Ignorable(clusters[1]))
    ensures OnlyGroupsOrName(others) <==> OnlyGroupsOrName(clusters)
  {
    assert |multiset(others)| == |multiset(clusters)|;
    assert others[0] in multiset(clusters);
    var i :| 0 <= i < |clusters| && clusters[i] == others[0];
  }

  lemma {:induction false} KnownIgnoresOrder(tr: Translator, clusters: seq<UnifyCluster>, others: seq<UnifyCluster>)
    requires multiset(clusters) == multiset(others)
    ensures KnownClusters(tr, clusters) == KnownClusters(tr, others)
    decreases |clusters|
  {
    assert |multiset(clusters)| == |multiset(others)|;
    if clusters == [] {
    } else {
      var front, last := clusters[..|clusters| - 1], clusters[|clusters| - 1];
      var a, b := TakeOutLast(clusters, others);
      KnownIgnoresOrder(tr, front, a + b);
      KnownAppend(tr, a, b);
      KnownAppend(tr, a + [last], b);
      assert (a + [last])[..|a|] == a;
    }
  }

  lemma {:induction false} KnownAppend(tr: Translator, a: seq<UnifyCluster>, b: seq<UnifyCluster>)
    ensures KnownClusters(tr, a + b) == KnownClusters(tr, a) + KnownClusters(tr, b)
    decreases |b|
  {
    if b == [] {
      assert a + b == a;
    } else {
      var front := b[..|b| - 1];
      assert (a + b)[..|a + b| - 1] == a + front;
      KnownAppend(tr, a, front);
    }
  }

  /** Apart from that, what an endpoint is bridged as does not depend on the order of its clusters. */
  lemma BridgeableIgnoresOrder(tr: Translator, env: Surroundings, clusters: seq<UnifyCluster>, others: seq<UnifyCluster>)
    requires clusters != [] && others != [] && multiset(clusters) == multiset(others)
    requires |clusters| == 2 ==> (Ignorable(clusters[0]) <==> Ignorable(clusters[1]))
    requires NoDuplicates(Built(tr, env, clusters))
    ensures Bridgeable(tr, env, clusters) == Bridgeable(tr, env, others)
  {
    IgnoringSame(clusters, others);
    KnownIgnoresOrder(tr, clusters, others);
    MatterTypeIgnoresOrder(tr, env, clusters, others);
  }

  // ---- Sequence steps of the specification -------------------------------------------

  lemma {:induction false} OfSnoc(entries: seq<Entry>, e: Entry, unid: string)
    ensures Of(entries + [e], unid) == if e.address.unid == unid then Of(entries, unid) + [e] else Of(entries, unid)
  {
    if entries == [] {
      assert [e][1..] == [] && entries + [e] == [e];
    } else {
      assert (entries + [e])[1..] == entries[1..] + [e];
      OfSnoc(entries[1..], e, unid);
    }
  }

  lemma SliceCons(entries: seq<Entry>, i: nat)
    requires 0 < i < |entries|
    ensures [entries[0]] + (entries[1..][..i - 1] + entries[1..][i..]) == entries[..i] + entries[i + 1..]
  {}

  lemma {:induction false} EraseMappedAt(entries: seq<Entry>, unid: string, endpoint: nat, i: nat)
    requires i <= |entries|
    requires forall k :: 0 <= k < i ==> !(entries[k].address.unid == unid && entries[k].matterEndpoint == endpoint)
    requires i < |entries| ==> entries[i].address.unid == unid && entries[i].matterEndpoint == endpoint
    ensures EraseMapped(entries, unid, endpoint) == if i < |entries| then entries[..i] + entries[i + 1..] else entries
  {
    if i == 0 {
    } else {
      EraseMappedAt(entries[1..], unid, endpoint, i - 1);
      if i < |entries| {
        SliceCons(entries, i);
      } else {
        assert entries == [entries[0]] + entries[1..];
      }
    }
  }

  /** What the handler does with one endpoint, given the decision about it. */
  function Announce(s: State, a: Address, decision: Option<nat>, online: bool, putOk: bool): State {
    match decision
    case Some(matterType) => Add(s, a, matterType, online, putOk)
    case None => s
  }

  lemma AnnounceNext(before: State, node: Node, decisions: seq<Option<nat>>, putOk: seq<bool>, i: nat)
    requires |putOk| == |decisions| == |node.endpoints| && i < |node.endpoints|
    ensures
      var here, a := Run(before, StepsOf(node, decisions, putOk, i)), Address(node.unid, node.endpoints[i].number);
      Announce(here, a, decisions[i], node.online, putOk[i]) == Run(before, StepsOf(node, decisions, putOk, i + 1))
  {
    if decisions[i].Some? {
      RunSnoc(before, StepsOf(node, decisions, putOk, i),
              AddEndpoint(Address(node.unid, node.endpoints[i].number), decisions[i].value, node.online, putOk[i]));
    }
  }

  lemma ReleaseNext(slots: Slots, store: Store, range: seq<Entry>, i: nat)
    requires i < |range|
    ensures ClearAll(slots, range[..i + 1]) == ClearSlot(ClearAll(slots, range[..i]), range[i].index)
    ensures ForgetAll(store, range[..i + 1]) == ForgetAll(store, range[..i]) - {EndpointKey(range[i].address)}
    ensures Notify(NodeDeleted, range[..i + 1]) == Notify(NodeDeleted, range[..i]) + [Event(NodeDeleted, range[i])]
  {
    assert range[..i + 1][..i] == range[..i];
  }

  /** The table and the notifications when the state change has dealt with the first i entries. */
  ghost predicate ChangedUpTo(before: State, unid: string, online: bool, i: nat, table: seq<Entry>, log: seq<Event>)
    requires i <= |before.entries|
  {
    var done := SetReachable(before.entries[..i], unid, online);
    table == done + before.entries[i..] && log == before.log + Notify(NodeStateChanged, Of(done, unid))
  }

  lemma {:induction false} SetReachableSnoc(entries: seq<Entry>, e: Entry, unid: string, online: bool)
    ensures SetReachable(entries + [e], unid, online) ==
            SetReachable(entries, unid, online) + [WithReachable(e, unid, online)]
    ensures |SetReachable(entries, unid, online)| == |entries|
  {
    if entries == [] {
      assert [e][1..] == [] && entries + [e] == [e];
    } else {
      assert (entries + [e])[1..] == entries[1..] + [e];
      SetReachableSnoc(entries[1..], e, unid, online);
    }
  }

  lemma ReplaceAt(done: seq<Entry>, entries: seq<Entry>, e: Entry)
    requires |done| < |entries|
    ensures var i := |done|;
      && (done + entries[i..])[i] == entries[i]
      && (done + entries[i..])[i := e] == (done + [e]) + entries[i + 1..]
      && (e == entries[i] ==> done + entries[i..] == (done + [e]) + entries[i + 1..])
  {}

  lemma NotifyMore(log: seq<Event>, update: Update, es: seq<Entry>, e: Entry)
    ensures log + Notify(update, es + [e]) == (log + Notify(update, es)) + [Event(update, e)]
  {}

  lemma ChangeNext(before: State, unid: string, online: bool, i: nat, table: seq<Entry>, log: seq<Event>)
    requires i < |before.entries| && ChangedUpTo(before, unid, online, i, table, log)
    ensures |table| == |before.entries| && table[i] == before.entries[i]
    ensures
      var e := table[i].(reachable := online);
      if table[i].address.unid == unid
      then ChangedUpTo(before, unid, online, i + 1, table[i := e], log + [Event(NodeStateChanged, e)])
      else ChangedUpTo(before, unid, online, i + 1, table, log)
  {
    var entries := before.entries;
    var done, e := SetReachable(entries[..i], unid, online), WithReachable(entries[i], unid, online);
    SetReachableSnoc(entries[..i], entries[i], unid, online);
    ReplaceAt(done, entries, e);
    OfSnoc(done, e, unid);
    NotifyMore(before.log, NodeStateChanged, Of(done, unid), e);
    ChangedNext(before, unid, online, i, done, e);
  }

  lemma ChangedNext(before: State, unid: string, online: bool, i: nat, done: seq<Entry>, e: Entry)
    requires i < |before.entries|
    requires SetReachable(before.entries[..i] + [before.entries[i]], unid, online) == done + [e]
    ensures SetReachable(before.entries[..i + 1], unid, online) == done + [e]
  {
    assert before.entries[..i + 1] == before.entries[..i] + [before.entries[i]];
  }

  lemma LogTwo(log: seq<Event>, first: Event, second: Event)
    ensures log + [first] + [second] == log + [first, second]
  {}

  class MatterNodeStateMonitor {
    const translator: Translator
    const ember: UnifyEmberInterface
    const storage: MatterDataStorage
    var bridgedEndpoints: seq<Entry>
    /** What the event listeners were told, in order. */
    var notifications: seq<Event>

    constructor (translator: Translator, ember: UnifyEmberInterface, storage: MatterDataStorage)
      requires ember.slots.Length == DYNAMIC_ENDPOINT_COUNT
      requires ember.slots[..] == EmptySlots() && ember.last == FIXED_ENDPOINT_COUNT - 1
      ensures this.translator == translator && this.ember == ember && this.storage == storage
      ensures Valid() && Abstract() == Boot(storage.kvs)
    {
      this.translator := translator;
      this.ember := ember;
      this.storage := storage;
      bridgedEndpoints := [];
      notifications := [];
    }

    ghost predicate Valid()
      reads this, ember, storage
    {
      ember.slots.Length == DYNAMIC_ENDPOINT_COUNT
    }

    ghost function Abstract(): State
      reads this, ember, ember.slots, storage
    {
      State(bridgedEndpoints, ember.slots[..], ember.last, storage.kvs, notifications)
    }

    method InvokeListeners(entry: Entry, update: Update)
      modifies this`notifications
      ensures notifications == old(notifications) + [Event(update, entry)]
    {
      notifications := notifications + [Event(update, entry)];
    }

    method EraseMapperEndpoint(unid: string, endpoint: nat)
      modifies this`bridgedEndpoints
      ensures bridgedEndpoints == EraseMapped(old(bridgedEndpoints), unid, endpoint)
    {
      var entries := bridgedEndpoints;
      for i := 0 to |entries|
        invariant bridgedEndpoints == entries
        invariant forall k :: 0 <= k < i ==> !(entries[k].address.unid == unid && entries[k].matterEndpoint == endpoint)
      {
        if entries[i].address.unid == unid && entries[i].matterEndpoint == endpoint {
          EraseMappedAt(entries, unid, endpoint, i);
          bridgedEndpoints := entries[..i] + entries[i + 1..];
          return;
        }
      }
      EraseMappedAt(entries, unid, endpoint, |entries|);
    }

    method RegisterDynamicEndpoint(entry: Entry)
      requires Valid()
      modifies ember.slots
      ensures ember.slots[..] == Register(old(ember.slots[..]), entry.index, entry.matterEndpoint)
    {
      var index := ember.GetDynamicIndex(entry.matterEndpoint);
      if index != INVALID {
        var _ := ember.ClearDynamicEndpoint(index);
      }
      var _ := ember.SetDynamicEndpoint(entry.index, entry.matterEndpoint);
    }

    /** The persisted id, or the next available one, persisted if the store takes it. */
    method ChooseMatterEndpoint(a: Address, putOk: bool) returns (matterEndpoint: nat)
      requires Valid()
      modifies ember, storage
      ensures matterEndpoint == Chosen(old(Abstract()), a, putOk).0
      ensures Abstract() == Chosen(old(Abstract()), a, putOk).1
    {
      var persisted := storage.GetEndpoint(a);
      if persisted.Some? {
        matterEndpoint := persisted.value;
      } else {
        matterEndpoint := ember.GetNextDynamicAvailableEndpointIndex();
        var _ := storage.PersistEndpoint(a, Some(matterEndpoint), putOk);
      }
    }

    /** The part of the loop body from the erasure on. */
    method BridgeAt(a: Address, matterEndpoint: nat, matterType: nat, online: bool)
      requires Valid()
      modifies this, ember.slots
      ensures Abstract() == Bridge(old(Abstract()), a, matterEndpoint, matterType, online)
    {
      var entry := Entry(a, matterEndpoint, (matterEndpoint - FIXED_ENDPOINT_COUNT) % 0x1_0000, matterType, false);
      EraseMapperEndpoint(a.unid, matterEndpoint);
      var kept := bridgedEndpoints;
      bridgedEndpoints := InsertEntry(kept, entry);
      RegisterDynamicEndpoint(entry);
      InvokeListeners(entry, NodeAdded);
      entry := entry.(reachable := online);
      bridgedEndpoints := InsertEntry(kept, entry);
      InvokeListeners(entry, NodeStateChanged);
      LogTwo(old(notifications), Event(NodeAdded, entry.(reachable := false)), Event(NodeStateChanged, entry));
    }

    /** The part of the loop body from the persisted mapping on. */
    method BridgeEndpoint(a: Address, matterType: nat, online: bool, putOk: bool)
      requires Valid()
      modifies this, ember, ember.slots, storage
      ensures Abstract() == Add(old(Abstract()), a, matterType, online, putOk)
    {
      var matterEndpoint := ChooseMatterEndpoint(a, putOk);
      BridgeAt(a, matterEndpoint, matterType, online);
    }

    method CountKnownClusters(clusters: seq<UnifyCluster>) returns (count: nat)
      ensures count == KnownClusters(translator, clusters) % 0x100
    {
      count := 0;
      for i := 0 to |clusters|
        invariant count == KnownClusters(translator, clusters[..i]) % 0x100
      {
        assert clusters[..i + 1][..i] == clusters[..i];
        if clusters[i].attributes == [] {
          continue;
        }
        if Find(translator.unifyClusters, clusters[i].name).Some? {
          count := (count + 1) % 0x100;
        }
      }
      assert clusters[..|clusters|] == clusters;
    }

    /** The part of the loop body that decides whether an endpoint is bridged, and as what. */
    method DecideMatterType(clusters: seq<UnifyCluster>, env: Surroundings) returns (matterType: Option<nat>)
      requires clusters != []
      requires !Skipped(translator, clusters) ==> Mappable(translator, Built(translator, env, clusters))
      ensures matterType == Bridgeable(translator, env, clusters)
    {
      if OnlyGroupsOrName(clusters) {
        return None;
      }
      var known := CountKnownClusters(clusters);
      if known == 0 {
        return None;
      }
      var builder := new EndpointBuilder();
      BuildMatterCluster(translator, env, clusters, builder);
      matterType := GetMatterType(translator, builder);
    }

    /** The loop body of the announcement. */
    method OnEndpointAdded(a: Address, clusters: seq<UnifyCluster>, online: bool, env: Surroundings, putOk: bool)
      requires Valid() && clusters != []
      requires !Skipped(translator, clusters) ==> Mappable(translator, Built(translator, env, clusters))
      modifies this, ember, ember.slots, storage
      ensures Abstract() == Announce(old(Abstract()), a, Bridgeable(translator, env, clusters), online, putOk)
    {
      var matterType := DecideMatterType(clusters, env);
      if matterType.Some? {
        BridgeEndpoint(a, matterType.value, online, putOk);
      }
    }

    /** `putOk` holds the store's answers to the Put calls, one per endpoint. */
    method OnUnifyNodeAdded(node: Node, env: Surroundings, putOk: seq<bool>)
      requires Valid() && |putOk| == |node.endpoints| && Workable(translator, env, node)
      modifies this, ember, ember.slots, storage
      ensures Abstract() ==
        Run(old(Abstract()), StepsOf(node, Decisions(translator, env, node.endpoints), putOk, |node.endpoints|))
    {
      ghost var decisions := Decisions(translator, env, node.endpoints);
      for i := 0 to |node.endpoints|
        invariant Abstract() == Run(old(Abstract()), StepsOf(node, decisions, putOk, i))
      {
        var ep := node.endpoints[i];
        AnnounceNext(old(Abstract()), node, decisions, putOk, i);
        OnEndpointAdded(Address(node.unid, ep.number), ep.clusters, node.online, env, putOk[i]);
      }
    }

    /** The loop body of the removal. */
    method ReleaseEndpoint(e: Entry)
      requires Valid()
      modifies this`notifications, ember.slots, storage
      ensures ember.slots[..] == ClearSlot(old(ember.slots[..]), e.index)
      ensures storage.kvs == old(storage.kvs) - {EndpointKey(e.address)}
      ensures notifications == old(notifications) + [Event(NodeDeleted, e)]
    {
      var _ := ember.ClearDynamicEndpoint(e.index);
      storage.RemoveEndpoint(e.address);
      InvokeListeners(e, NodeDeleted);
    }

    method EqualRange(unid: string) returns (range: seq<Entry>)
      ensures range == Of(bridgedEndpoints, unid)
    {
      range := [];
      for i := 0 to |bridgedEndpoints|
        invariant range == Of(bridgedEndpoints[..i], unid)
      {
        assert bridgedEndpoints[..i + 1] == bridgedEndpoints[..i] + [bridgedEndpoints[i]];
        OfSnoc(bridgedEndpoints[..i], bridgedEndpoints[i], unid);
        if bridgedEndpoints[i].address.unid == unid {
          range := range + [bridgedEndpoints[i]];
        }
      }
      assert bridgedEndpoints[..|bridgedEndpoints|] == bridgedEndpoints;
    }

    method OnUnifyNodeRemoved(unid: string)
      requires Valid()
      modifies this, ember.slots, storage
      ensures Abstract() == Remove(old(Abstract()), unid)
    {
      var range := EqualRange(unid);
      for i := 0 to |range|
        invariant bridgedEndpoints == old(bridgedEndpoints)
        invariant ember.slots[..] == ClearAll(old(ember.slots[..]), range[..i])
        invariant storage.kvs == ForgetAll(old(storage.kvs), range[..i])
        invariant notifications == old(notifications) + Notify(NodeDeleted, range[..i])
      {
        ReleaseNext(old(ember.slots[..]), old(storage.kvs), range, i);
        ReleaseEndpoint(range[i]);
      }
      assert range[..|range|] == range;
      bridgedEndpoints := Without(bridgedEndpoints, unid);
    }

    /** The loop body of the state change. */
    method ReachEndpoint(i: nat, online: bool)
      requires i < |bridgedEndpoints|
      modifies this
      ensures bridgedEndpoints == old(bridgedEndpoints)[i := old(bridgedEndpoints)[i].(reachable := online)]
      ensures notifications == old(notifications) + [Event(NodeStateChanged, bridgedEndpoints[i])]
    {
      bridgedEndpoints := bridgedEndpoints[i := bridgedEndpoints[i].(reachable := online)];
      InvokeListeners(bridgedEndpoints[i], NodeStateChanged);
    }

    method OnUnifyNodeStateChanged(unid: string, online: bool)
      requires Valid()
      modifies this
      ensures Abstract() == Change(old(Abstract()), unid, online)
    {
      ghost var before := Abstract();
      for i := 0 to |bridgedEndpoints|
        invariant |bridgedEndpoints| == |before.entries|
        invariant ChangedUpTo(before, unid, online, i, bridgedEndpoints, notifications)
      {
        ChangeNext(before, unid, online, i, bridgedEndpoints, notifications);
        if bridgedEndpoints[i].address.unid == unid {
          ReachEndpoint(i, online);
        }
      }
      assert before.entries[..|before.entries|] == before.entries;
    }

    /** `bridged_endpoint(unid, epid)`; the endpoint number is an `int`. */
    method BridgedEndpoint(unid: string, endpoint: int) returns (found: Option<Entry>)
      ensures found == ByAddress(bridgedEndpoints, unid, endpoint)
    {
      for i := 0 to |bridgedEndpoints|
        invariant ByAddress(bridgedEndpoints, unid, endpoint) == ByAddress(bridgedEndpoints[i..], unid, endpoint)
      {
        assert bridgedEndpoints[i..][1..] == bridgedEndpoints[i + 1..];
        if bridgedEndpoints[i].address.unid == unid && bridgedEndpoints[i].address.endpoint == endpoint {
          return Some(bridgedEndpoints[i]);
        }
      }
      return None;
    }

    /** `bridged_endpoint(matter_endpoint)`. */
    method BridgedMatterEndpoint(endpoint: nat) returns (found: Option<Entry>)
      ensures found == ByMatterEndpoint(bridgedEndpoints, endpoint)
    {
      for i := 0 to |bridgedEndpoints|
        invariant ByMatterEndpoint(bridgedEndpoints, endpoint) == ByMatterEndpoint(bridgedEndpoints[i..], endpoint)
      {
        assert bridgedEndpoints[i..][1..] == bridgedEndpoints[i + 1..];
        if bridgedEndpoints[i].matterEndpoint == endpoint {
          return Some(bridgedEndpoints[i]);
        }
      }
      return None;
    }
  }
}
