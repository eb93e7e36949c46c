/** What a listener can rebuild from the notifications: the bridged table, and the MQTT subscriptions. */
module Notifications {
  import opened Text
  import opened DataStorage
  import opened Lifecycle
  import opened LifecycleProofs
  import opened LifecycleTheorems
  import opened Topics

  // ---- The table as a listener sees it ---------------------------------------------

  datatype Seen = Seen(matterEndpoint: nat, reachable: bool)

  type View = map<Address, Seen>

  function Apply(view: View, event: Event): View {
    var e := event.entry;
    match event.update
    case NodeAdded => view[e.address := Seen(e.matterEndpoint, false)]
    case NodeStateChanged =>
      if e.address in view then view[e.address := Seen(e.matterEndpoint, e.reachable)] else view
    case NodeDeleted => view - {e.address}
  }

  function Replay(view: View, log: seq<Event>): View {
    if log == [] then view else Apply(Replay(view, log[..|log| - 1]), log[|log| - 1])
  }

  ghost predicate Mirrors(view: View, entries: seq<Entry>) {
    && (forall a :: a in view <==> IsBridged(entries, a))
    && (forall e :: e in entries ==> e.address in view && view[e.address] == Seen(e.matterEndpoint, e.reachable))
  }

  lemma {:induction false} ReplayAppend(view: View, log: seq<Event>, more: seq<Event>)
    ensures Replay(view, log + more) == Replay(Replay(view, log), more)
    decreases |more|
  {
    if more == [] {
      assert log + more == log;
    } else {
      var front := more[..|more| - 1];
      assert (log + more)[..|log + more| - 1] == log + front;
      ReplayAppend(view, log, front);
    }
  }

  lemma ReplayTwo(view: View, first: Event, second: Event)
    ensures Replay(view, [first, second]) == Apply(Apply(view, first), second)
  {
    assert [first, second][..1] == [first];
    assert [first][..0] == [];
    assert Replay(view, [first]) == Apply(view, first);
  }

  lemma NotifyFront(update: Update, es: seq<Entry>)
    requires es != []
    ensures Notify(update, es)[..|es| - 1] == Notify(update, es[..|es| - 1])
  {}

  lemma {:induction false} ReplayDeleted(view: View, es: seq<Entry>)
    ensures forall a :: a in Replay(view, Notify(NodeDeleted, es)) <==> a in view && !IsBridged(es, a)
    ensures forall a :: a in Replay(view, Notify(NodeDeleted, es)) ==> Replay(view, Notify(NodeDeleted, es))[a] == view[a]
    decreases |es|
  {
    if es == [] {
    } else {
      NotifyFront(NodeDeleted, es);
      var front, end := es[..|es| - 1], es[|es| - 1];
      ReplayDeleted(view, front);
      BridgedSnoc(es);
    }
  }

  lemma BridgedSnoc(es: seq<Entry>)
    requires es != []
    ensures forall a :: IsBridged(es, a) <==> IsBridged(es[..|es| - 1], a) || es[|es| - 1].address == a
  {
    var front, end := es[..|es| - 1], es[|es| - 1];
    assert es == front + [end];
    forall a
      ensures IsBridged(es, a) <==> IsBridged(front, a) || end.address == a
    {
      if end.address == a {
        assert end in es;
      }
    }
  }

  /** Later notifications of other endpoints leave an endpoint's view alone; its own sets it. */
  lemma {:induction false} ReplayChanged(view: View, es: seq<Entry>, a: Address, seen: Seen)
    requires forall e :: e in es && e.address == a ==> Seen(e.matterEndpoint, e.reachable) == seen
    ensures var after := Replay(view, Notify(NodeStateChanged, es));
      && (a in after <==> a in view)
      && (a in after ==> after[a] == if IsBridged(es, a) then seen else view[a])
    decreases |es|
  {
    if es == [] {
    } else {
      NotifyFront(NodeStateChanged, es);
      ReplayChanged(view, es[..|es| - 1], a, seen);
      BridgedSnoc(es);
    }
  }

  function Listener(s: State): View {
    Replay(map[], s.log)
  }

  /** Putting one endpoint in, in place of its earlier entry if it had one. */
  lemma MirrorInsert(view: View, entries: seq<Entry>, entries': seq<Entry>, entry: Entry)
    requires Mirrors(view, entries)
    requires forall e :: e in entries' <==> (e in entries && e.address != entry.address) || e == entry
    ensures Mirrors(view[entry.address := Seen(entry.matterEndpoint, entry.reachable)], entries')
  {
    assert entry in entries';
    forall a | a != entry.address && IsBridged(entries, a)
      ensures IsBridged(entries', a)
    {
      var e :| e in entries && e.address == a;
      assert e in entries';
    }
  }

  lemma ListenerOfAdd(s: State, s': State, entry: Entry)
    requires s'.log == s.log + [Event(NodeAdded, entry.(reachable := false)), Event(NodeStateChanged, entry)]
    ensures Listener(s') == Listener(s)[entry.address := Seen(entry.matterEndpoint, entry.reachable)]
  {
    var first, second := Event(NodeAdded, entry.(reachable := false)), Event(NodeStateChanged, entry);
    ReplayAppend(map[], s.log, [first, second]);
    ReplayTwo(Listener(s), first, second);
  }

  lemma MirrorAdd(s: State, a: Address, matterType: nat, online: bool, putOk: bool)
    requires Coherent(s) && IsAddress(a) && Mirrors(Listener(s), s.entries)
    requires Admissible(s, AddEndpoint(a, matterType, online, putOk))
    ensures var s' := Add(s, a, matterType, online, putOk); Mirrors(Listener(s'), s'.entries)
  {
    var s' := Add(s, a, matterType, online, putOk);
    var id := if EndpointKey(a) in s.store then s.store[EndpointKey(a)] else PickedId(s);
    var entry := NewEntry(a, id, matterType, online);
    ListenerOfAdd(s, s', entry);
    AddKeeps(s, a, matterType, online, putOk);
    assert s'.store[EndpointKey(a)] == id;
    MirrorInsert(Listener(s), s.entries, s'.entries, entry);
  }

  lemma MirrorRemove(s: State, unid: string)
    requires Coherent(s) && Mirrors(Listener(s), s.entries)
    ensures Mirrors(Listener(Remove(s, unid)), Remove(s, unid).entries)
  {
    var s' := Remove(s, unid);
    var gone := Of(s.entries, unid);
    RemoveKeeps(s, unid);
    OfSpec(s.entries, unid);
    ReplayAppend(map[], s.log, Notify(NodeDeleted, gone));
    ReplayDeleted(Listener(s), gone);
    forall a
      ensures IsBridged(s'.entries, a) <==> IsBridged(s.entries, a) && !IsBridged(gone, a)
    {
      if IsBridged(s.entries, a) {
        var e :| e in s.entries && e.address == a;
        assert if a.unid == unid then e in gone else e in s'.entries;
      }
    }
  }

  /** Among the entries notified of a state change, an address stands for one entry only. */
  lemma ToldOnce(s: State, unid: string, e: Entry)
    requires Coherent(s) && e in s.entries
    ensures forall f :: f in Of(s.entries, unid) && f.address == e.address ==> f == e
    ensures IsBridged(Of(s.entries, unid), e.address) <==> e.address.unid == unid
  {
    OfSpec(s.entries, unid);
    forall f | f in Of(s.entries, unid) && f.address == e.address
      ensures f == e
    {
      OneEntryEach(s, e, f);
    }
    assert e.address.unid == unid ==> e in Of(s.entries, unid);
  }

  /** Replaying the state changes from a view of the old table gives each endpoint's new state. */
  lemma ToldState(view: View, s': State, unid: string, e: Entry)
    requires Coherent(s') && e in s'.entries && e.address in view
    requires e.address.unid != unid ==> view[e.address] == Seen(e.matterEndpoint, e.reachable)
    ensures var after := Replay(view, Notify(NodeStateChanged, Of(s'.entries, unid)));
      e.address in after && after[e.address] == Seen(e.matterEndpoint, e.reachable)
  {
    ToldOnce(s', unid, e);
    ReplayChanged(view, Of(s'.entries, unid), e.address, Seen(e.matterEndpoint, e.reachable));
  }

  lemma {:induction false} ReplayChangedKeys(view: View, es: seq<Entry>)
    ensures Replay(view, Notify(NodeStateChanged, es)).Keys == view.Keys
    decreases |es|
  {
    if es == [] {
    } else {
      NotifyFront(NodeStateChanged, es);
      ReplayChangedKeys(view, es[..|es| - 1]);
    }
  }

  lemma ListenerOfChange(s: State, unid: string, online: bool)
    ensures Listener(Change(s, unid, online)) ==
      Replay(Listener(s), Notify(NodeStateChanged, Of(Change(s, unid, online).entries, unid)))
  {
    ReplayAppend(map[], s.log, Notify(NodeStateChanged, Of(Change(s, unid, online).entries, unid)));
  }

  lemma BeforeChange(s: State, unid: string, online: bool, e: Entry)
    requires Mirrors(Listener(s), s.entries) && e in Change(s, unid, online).entries
    ensures e.address in Listener(s)
    ensures e.address.unid != unid ==> Listener(s)[e.address] == Seen(e.matterEndpoint, e.reachable)
  {
    SetReachableSpec(s.entries, unid, online);
    var i :| 0 <= i < |s.entries| && Change(s, unid, online).entries[i] == e;
    assert s.entries[i] in s.entries && WithReachable(s.entries[i], unid, online) == e;
  }

  lemma MirrorChange(s: State, unid: string, online: bool)
    requires Coherent(s) && Mirrors(Listener(s), s.entries)
    ensures Mirrors(Listener(Change(s, unid, online)), Change(s, unid, online).entries)
  {
    var s' := Change(s, unid, online);
    ChangeKeeps(s, unid, online);
    ListenerOfChange(s, unid, online);
    ReplayChangedKeys(Listener(s), Of(s'.entries, unid));
    forall e | e in s'.entries
      ensures e.address in Listener(s') && Listener(s')[e.address] == Seen(e.matterEndpoint, e.reachable)
    {
      BeforeChange(s, unid, online, e);
      ToldState(Listener(s), s', unid, e);
    }
  }

  lemma MirrorStep(s: State, step: Step)
    requires Coherent(s) && WellFormed(step) && Admissible(s, step) && Mirrors(Listener(s), s.entries)
    ensures Mirrors(Listener(Do(s, step)), Do(s, step).entries)
  {
    match step
    case AddEndpoint(a, matterType, online, putOk) => MirrorAdd(s, a, matterType, online, putOk);
    case RemoveNode(unid) => MirrorRemove(s, unid);
    case ChangeState(unid, online) => MirrorChange(s, unid, online);
    case _ =>
  }

  /**
   * The notifications are the table: whatever ran since start-up, replaying them gives exactly
   * the bridged endpoints with their ids and their reachability.
   */
  lemma {:induction false} LogMirrorsTable(store: Store, steps: seq<Step>)
    requires SoundStore(store) && AllWellFormed(steps) && AlwaysAdmissible(Boot(store), steps)
    ensures var s := Run(Boot(store), steps); Coherent(s) && Mirrors(Listener(s), s.entries)
    decreases |steps|
  {
    if steps == [] {
    } else {
      var n := |steps| - 1;
      var front := steps[..n];
      assert forall i :: 0 <= i <= n ==> front[..i] == steps[..i];
      forall i | 0 <= i < n
        ensures WellFormed(front[i]) && Admissible(Run(Boot(store), front[..i]), front[i])
      {
        assert front[i] == steps[i];
      }
      LogMirrorsTable(store, front);
      RunStep(Boot(store), steps, n);
      assert steps[..n + 1] == steps;
      MirrorStep(Run(Boot(store), front), steps[n]);
      StepCoherent(Run(Boot(store), front), steps[n]);
    }
  }

  // ---- Subscriptions ---------------------------------------------------------------

  /** What a translator subscribes to per endpoint and cluster: attribute reports, or command responses. */
  datatype Kind = Attributes | Responses

  function Filter(kind: Kind, a: Address, cluster: string): string {
    if kind.Attributes? then ReportedTopic(a, cluster, "+") else ResponseTopic(a, cluster, "+")
  }

  /** MQTT's reading of a filter with one single-level wildcard: any one level may stand for it. */
  ghost predicate Matches(filter: string, topic: string) {
    exists before, level, after :: MatchesAt(filter, topic, before, level, after)
  }

  ghost predicate MatchesAt(filter: string, topic: string, before: string, level: string, after: string) {
    && filter == before + "/+" + after && (after == "" || after[0] == '/')
    && SlashFree(level) && topic == before + "/" + level + after
  }

  /** What comes before and after the name in the topics of one endpoint and cluster. */
  function Before(kind: Kind, a: Address, cluster: string): string {
    "ucl/by-unid/" + a.unid + "/ep" + Dec(a.endpoint) + "/" + cluster
    + if kind.Attributes? then "/Attributes" else "/GeneratedCommands"
  }

  function Behind(kind: Kind): string {
    if kind.Attributes? then "/Reported" else ""
  }

  lemma WildcardStandsOnce(before: string, after: string, p: string, q: string)
    requires Free(before, '+') && Free(after, '+')
    requires before + "/+" + after == p + "/+" + q
    ensures p == before && q == after
  {
    var filter := before + "/+" + after;
    assert filter[|before| + 1] == '+' && filter[|p| + 1] == '+';
    assert forall i :: 0 <= i < |filter| && filter[i] == '+' ==> i == |before| + 1;
    assert before == filter[..|before|] && p == filter[..|p|];
    assert after == filter[|before| + 2..] && q == filter[|p| + 2..];
  }

  /**
   * A subscription gets exactly the reports of its endpoint and cluster, for every attribute; or
   * exactly the responses, for every command. Unids and cluster names hold no wildcard.
   */
  lemma SubscriptionGetsReports(kind: Kind, a: Address, cluster: string, topic: string)
    requires Free(a.unid, '+') && Free(cluster, '+')
    ensures Matches(Filter(kind, a, cluster), topic) <==>
      exists name :: SlashFree(name) && topic == Before(kind, a, cluster) + "/" + name + Behind(kind)
  {
    var before, after, filter := Before(kind, a, cluster), Behind(kind), Filter(kind, a, cluster);
    DecValue(a.endpoint);
    assert filter == before + "/+" + after;
    assert Free(before, '+') && Free(after, '+');
    if Matches(filter, topic) {
      var p, level, q :| MatchesAt(filter, topic, p, level, q);
      WildcardStandsOnce(before, after, p, q);
    }
    if name: string :| SlashFree(name) && topic == before + "/" + name + after {
      assert MatchesAt(filter, topic, before, name, after);
    }
  }

  /** Those are the topics that are read back. */
  lemma ReportsAreRead(a: Address, cluster: string, name: string)
    ensures ReportedTopic(a, cluster, name) == Before(Attributes, a, cluster) + "/" + name + Behind(Attributes)
    ensures ResponseTopic(a, cluster, name) == Before(Responses, a, cluster) + "/" + name + Behind(Responses)
  {
    assert "/Attributes" + "/" == "/Attributes/" && "/GeneratedCommands" + "/" == "/GeneratedCommands/";
  }

  ghost predicate IsFilterOf(kind: Kind, clusters: seq<string>, a: Address, topic: string) {
    exists c :: c in clusters && topic == Filter(kind, a, c)
  }

  ghost predicate AfterEvent(kind: Kind, clusters: seq<string>, before: set<string>, event: Event, after: set<string>) {
    forall topic :: topic in after <==>
      match event.update
      case NodeAdded => topic in before || IsFilterOf(kind, clusters, event.entry.address, topic)
      case NodeDeleted => topic in before && !IsFilterOf(kind, clusters, event.entry.address, topic)
      case NodeStateChanged => topic in before
  }

  /** One translator's active subscriptions, a set: subscribing twice is subscribing once. */
  class Translator {
    const kind: Kind
    const clusters: seq<string>
    var subscriptions: set<string>

    constructor (kind: Kind, clusters: seq<string>)
      ensures this.kind == kind && this.clusters == clusters && subscriptions == {}
    {
      this.kind := kind;
      this.clusters := clusters;
      subscriptions := {};
    }

    /** `attributes_update_subscription` and `commands_response_subscription`. */
    method UpdateSubscription(event: Event)
      modifies this
      ensures AfterEvent(kind, clusters, old(subscriptions), event, subscriptions)
    {
      for i := 0 to |clusters|
        invariant AfterEvent(kind, clusters[..i], old(subscriptions), event, subscriptions)
      {
        assert clusters[..i + 1] == clusters[..i] + [clusters[i]];
        var topic := Filter(kind, event.entry.address, clusters[i]);
        match event.update {
          case NodeAdded => subscriptions := subscriptions + {topic};
          case NodeDeleted => subscriptions := subscriptions - {topic};
          case NodeStateChanged =>
        }
      }
      assert clusters[..|clusters|] == clusters;
    }

    /** The listener's whole life: one call per notification. */
    method Listen(log: seq<Event>)
      requires subscriptions == {}
      requires forall i :: 0 <= i < |log| ==> SlashFree(log[i].entry.address.unid)
      requires forall c :: c in clusters ==> SlashFree(c)
      modifies this
      ensures Exact(kind, clusters, Replay(map[], log), subscriptions)
    {
      for i := 0 to |log|
        invariant Exact(kind, clusters, Replay(map[], log[..i]), subscriptions)
        invariant forall a :: a in Replay(map[], log[..i]) ==> SlashFree(a.unid)
      {
        ghost var before := subscriptions;
        UpdateSubscription(log[i]);
        assert log[..i + 1][..i] == log[..i];
        ExactStep(kind, clusters, Replay(map[], log[..i]), before, log[i], subscriptions);
      }
      assert log[..|log|] == log;
    }
  }

  ghost predicate Covered(kind: Kind, clusters: seq<string>, view: View, topic: string) {
    exists a :: a in view && IsFilterOf(kind, clusters, a, topic)
  }

  /** Exactly one topic per endpoint in view and cluster name. */
  ghost predicate Exact(kind: Kind, clusters: seq<string>, view: View, subscriptions: set<string>) {
    forall topic :: topic in subscriptions <==> Covered(kind, clusters, view, topic)
  }

  lemma FiltersApart(kind: Kind, clusters: seq<string>, a: Address, b: Address, topic: string)
    requires SlashFree(a.unid) && SlashFree(b.unid) && forall c :: c in clusters ==> SlashFree(c)
    requires IsFilterOf(kind, clusters, a, topic) && IsFilterOf(kind, clusters, b, topic)
    ensures a == b
  {
    var c :| c in clusters && topic == Filter(kind, a, c);
    var d :| d in clusters && topic == Filter(kind, b, d);
    ReportedInjective(a, c, "+", b, d, "+");
    ResponseInjective(a, c, "+", b, d, "+");
  }

  /** How the covered topics change with one endpoint. */
  lemma CoveredStep(kind: Kind, clusters: seq<string>, view: View, event: Event, topic: string)
    requires SlashFree(event.entry.address.unid) && forall a :: a in view ==> SlashFree(a.unid)
    requires forall c :: c in clusters ==> SlashFree(c)
    ensures Covered(kind, clusters, Apply(view, event), topic) <==>
      match event.update
      case NodeAdded => Covered(kind, clusters, view, topic) || IsFilterOf(kind, clusters, event.entry.address, topic)
      case NodeDeleted => Covered(kind, clusters, view, topic) && !IsFilterOf(kind, clusters, event.entry.address, topic)
      case NodeStateChanged => Covered(kind, clusters, view, topic)
  {
    var a := event.entry.address;
    var view' := Apply(view, event);
    if Covered(kind, clusters, view, topic) {
      var b :| b in view && IsFilterOf(kind, clusters, b, topic);
      if event.update.NodeDeleted? && IsFilterOf(kind, clusters, a, topic) {
        forall d | d in view'
          ensures !IsFilterOf(kind, clusters, d, topic)
        {
          if IsFilterOf(kind, clusters, d, topic) {
            FiltersApart(kind, clusters, a, d, topic);
          }
        }
      } else {
        assert b in view';
      }
    }
    if event.update.NodeAdded? {
      assert a in view';
    }
  }

  lemma ExactStep(kind: Kind, clusters: seq<string>, view: View, before: set<string>, event: Event, after: set<string>)
    requires Exact(kind, clusters, view, before) && AfterEvent(kind, clusters, before, event, after)
    requires SlashFree(event.entry.address.unid) && forall a :: a in view ==> SlashFree(a.unid)
    requires forall c :: c in clusters ==> SlashFree(c)
    ensures Exact(kind, clusters, Apply(view, event), after)
  {
    forall topic
      ensures topic in after <==> Covered(kind, clusters, Apply(view, event), topic)
    {
      CoveredStep(kind, clusters, view, event, topic);
    }
  }

  ghost predicate CleanUnids(s: State) {
    && (forall e :: e in s.entries ==> SlashFree(e.address.unid))
    && (forall i :: 0 <= i < |s.log| ==> SlashFree(s.log[i].entry.address.unid))
  }

  lemma CleanStep(s: State, step: Step)
    requires Coherent(s) && WellFormed(step) && Admissible(s, step) && CleanUnids(s)
    requires step.AddEndpoint? ==> SlashFree(step.address.unid)
    ensures CleanUnids(Do(s, step))
  {
    match step
    case AddEndpoint(_, _, _, _) => CleanAdd(s, step);
    case RemoveNode(unid) => CleanRemove(s, unid);
    case ChangeState(unid, online) => CleanChange(s, unid, online);
    case _ =>
  }

  lemma CleanLog(log: seq<Event>, first: Event, second: Event)
    requires forall i :: 0 <= i < |log| ==> SlashFree(log[i].entry.address.unid)
    requires SlashFree(first.entry.address.unid) && SlashFree(second.entry.address.unid)
    ensures forall i :: 0 <= i < |log + [first, second]| ==> SlashFree((log + [first, second])[i].entry.address.unid)
  {}

  lemma CleanAdd(s: State, step: Step)
    requires Coherent(s) && CleanUnids(s) && step.AddEndpoint?
    requires IsAddress(step.address) && SlashFree(step.address.unid) && Admissible(s, step)
    ensures CleanUnids(Do(s, step))
  {
    var a := step.address;
    var id := if EndpointKey(a) in s.store then s.store[EndpointKey(a)] else PickedId(s);
    var entry := NewEntry(a, id, step.matterType, step.online);
    var s' := Do(s, step);
    assert s'.log == s.log + [Event(NodeAdded, entry.(reachable := false)), Event(NodeStateChanged, entry)];
    CleanLog(s.log, Event(NodeAdded, entry.(reachable := false)), Event(NodeStateChanged, entry));
    assert forall e :: e in s'.entries ==> SlashFree(e.address.unid) by {
      AddKeeps(s, a, step.matterType, step.online, step.putOk);
    }
  }

  lemma CleanRemove(s: State, unid: string)
    requires Coherent(s) && CleanUnids(s)
    ensures CleanUnids(Remove(s, unid))
  {
    RemoveKeeps(s, unid);
    OfSpec(s.entries, unid);
    var gone := Of(s.entries, unid);
    assert forall i :: 0 <= i < |gone| ==> gone[i] in gone;
  }

  lemma CleanChange(s: State, unid: string, online: bool)
    requires CleanUnids(s)
    ensures CleanUnids(Change(s, unid, online))
  {
    var es := SetReachable(s.entries, unid, online);
    SetReachableSpec(s.entries, unid, online);
    OfSpec(es, unid);
    var told := Of(es, unid);
    forall e | e in es
      ensures SlashFree(e.address.unid)
    {
      var i :| 0 <= i < |es| && es[i] == e;
      assert s.entries[i] in s.entries;
    }
    assert forall i :: 0 <= i < |told| ==> told[i] in told;
  }

  lemma {:induction false} CleanRun(s: State, steps: seq<Step>)
    requires Coherent(s) && CleanUnids(s) && AllWellFormed(steps) && AlwaysAdmissible(s, steps)
    requires forall i :: 0 <= i < |steps| && steps[i].AddEndpoint? ==> SlashFree(steps[i].address.unid)
    ensures CleanUnids(Run(s, steps))
    decreases |steps|
  {
    if steps == [] {
    } else {
      AdmissibleTail(s, steps);
      StepCoherent(s, steps[0]);
      CleanStep(s, steps[0]);
      CleanRun(Do(s, steps[0]), steps[1..]);
    }
  }

  lemma AdmissibleTail(s: State, steps: seq<Step>)
    requires steps != [] && AlwaysAdmissible(s, steps)
    ensures Admissible(s, steps[0]) && AlwaysAdmissible(Do(s, steps[0]), steps[1..])
  {
    assert steps[..0] == [];
    assert Run(s, steps[..0]) == s;
    forall i | 0 <= i < |steps[1..]|
      ensures Admissible(Run(Do(s, steps[0]), steps[1..][..i]), steps[1..][i])
    {
      assert steps[..i + 1][1..] == steps[1..][..i];
      assert Run(s, steps[..i + 1]) == Run(Do(s, steps[0]), steps[1..][..i]);
      assert steps[1..][i] == steps[i + 1];
    }
  }

  /**
   * A translator that heard every notification since start-up is subscribed to exactly one topic
   * per bridged endpoint and cluster name, re-announcements included.
   */
  lemma SubscriptionsMatchTable(
    store: Store, steps: seq<Step>, kind: Kind, clusters: seq<string>, subscriptions: set<string>)
    requires SoundStore(store) && AllWellFormed(steps) && AlwaysAdmissible(Boot(store), steps)
    requires forall i :: 0 <= i < |steps| && steps[i].AddEndpoint? ==> SlashFree(steps[i].address.unid)
    requires Exact(kind, clusters, Listener(Run(Boot(store), steps)), subscriptions)
    ensures CleanUnids(Run(Boot(store), steps))
    ensures forall topic :: topic in subscriptions <==>
      exists a :: IsBridged(Run(Boot(store), steps).entries, a) && IsFilterOf(kind, clusters, a, topic)
  {
    var s := Run(Boot(store), steps);
    CleanRun(Boot(store), steps);
    LogMirrorsTable(store, steps);
    forall topic
      ensures topic in subscriptions <==> exists a :: IsBridged(s.entries, a) && IsFilterOf(kind, clusters, a, topic)
    {
      assert topic in subscriptions <==> Covered(kind, clusters, Listener(s), topic);
    }
  }
}
