/** Turning the clusters of a Unify endpoint into the Matter clusters its device type is chosen from. */
module ClusterInteractor {
  import opened Text
  import opened DeviceTypeSelection
  import opened SelectionTheorems

  datatype UnifyCluster = UnifyCluster(name: string, attributes: seq<string>, supported: seq<string>)

  /** What an emulator does to a cluster: it adds attributes and commands, or clears the lists first. */
  datatype Emulation = Emulation(clears: bool, attributes: seq<nat>, commands: seq<nat>)

  /** The emulators' work on each cluster that has one, and what lies in memory behind a command list. */
  datatype Surroundings = Surroundings(emulated: map<UnifyCluster, Emulation>, heap: seq<nat>)

  const DESCRIPTOR: nat := 0x1D
  const BRIDGED_BASIC: nat := 0x39
  const INVALID_COMMAND: nat := 0xFFFF_FFFF
  const NODE_LABEL: nat := 0x05
  const REACHABLE: nat := 0x11
  const EVENT_LIST: nat := 0xFFFA
  const FEATURE_MAP: nat := 0xFFFC
  const CLUSTER_REVISION: nat := 0xFFFD

  function DescriptorAttributes(): seq<nat> {
    [0, 1, 2, 3, CLUSTER_REVISION]
  }

  function BasicAttributes(): seq<nat> {
    [NODE_LABEL, REACHABLE, FEATURE_MAP, CLUSTER_REVISION]
  }

  // ---- The specification -----------------------------------------------------------

  /** The Matter id a cluster is mapped to: none without attributes, for NameAndLocation, or for unknown names. */
  function MappedId(tr: Translator, c: UnifyCluster): Option<nat> {
    if c.attributes == [] || c.name == "NameAndLocation" then None else Find(tr.unifyClusters, c.name)
  }

  /** The known ones among the names of one cluster. */
  function TranslateAll(table: Table, cluster: string, names: seq<string>): seq<nat> {
    if names == [] then []
    else
      var rest := TranslateAll(table, cluster, names[..|names| - 1]);
      match Find2(table, cluster, names[|names| - 1])
      case Some(id) => rest + [id]
      case None => rest
  }

  /** The attributes and the commands of a cluster once its emulator has been over them. */
  function Emulate(env: Surroundings, c: UnifyCluster, attributes: seq<nat>, commands: seq<nat>): (seq<nat>, seq<nat>) {
    if c !in env.emulated then (attributes, commands)
    else
      var e := env.emulated[c];
      if e.clears then (e.attributes, e.commands) else (attributes + e.attributes, commands + e.commands)
  }

  function Mapped(tr: Translator, env: Surroundings, c: UnifyCluster, id: nat): MatterCluster {
    var (attributes, commands) := Emulate(
      env, c,
      TranslateAll(tr.unifyAttributes, c.name, c.attributes)
      + (if c.name == "Basic" then [NODE_LABEL, REACHABLE] else [])
      + [FEATURE_MAP, CLUSTER_REVISION, EVENT_LIST],
      TranslateAll(tr.unifyCommands, c.name, c.supported) + [INVALID_COMMAND]);
    MatterCluster(id, attributes, commands + env.heap)
  }

  function MappedClusters(tr: Translator, env: Surroundings, clusters: seq<UnifyCluster>): seq<MatterCluster> {
    if clusters == [] then []
    else
      var rest := MappedClusters(tr, env, clusters[..|clusters| - 1]);
      var last := clusters[|clusters| - 1];
      match MappedId(tr, last)
      case Some(id) => rest + [Mapped(tr, env, last, id)]
      case None => rest
  }

  ghost predicate BasicMapped(tr: Translator, clusters: seq<UnifyCluster>) {
    exists c :: c in clusters && c.name == "Basic" && MappedId(tr, c).Some?
  }

  ghost function Built(tr: Translator, env: Surroundings, clusters: seq<UnifyCluster>): seq<MatterCluster> {
    MappedClusters(tr, env, clusters)
    + (if BasicMapped(tr, clusters) then [] else [MatterCluster(BRIDGED_BASIC, BasicAttributes(), env.heap)])
    + [MatterCluster(DESCRIPTOR, DescriptorAttributes(), env.heap)]
  }

  // ---- The builder -----------------------------------------------------------------

  /** A cluster under construction reaches the list when its builder goes out of scope. */
  class EndpointBuilder {
    var clusters: seq<MatterCluster>

    constructor ()
      ensures clusters == []
    {
      clusters := [];
    }

    method OnDone(id: nat, attributes: seq<nat>, incoming: seq<nat>, heap: seq<nat>)
      modifies this
      ensures clusters == old(clusters) + [MatterCluster(id, attributes, incoming + heap)]
    {
      clusters := clusters + [MatterCluster(id, attributes, incoming + heap)];
    }
  }

  method Translate(table: Table, cluster: string, names: seq<string>) returns (ids: seq<nat>)
    ensures ids == TranslateAll(table, cluster, names)
  {
    ids := [];
    for i := 0 to |names|
      invariant ids == TranslateAll(table, cluster, names[..i])
    {
      assert names[..i + 1][..i] == names[..i];
      var id := Find2(table, cluster, names[i]);
      if id.Some? {
        ids := ids + [id.value];
      }
    }
    assert names[..|names|] == names;
  }

  /** The emulator of the cluster, if it has one, works on the lists in place. */
  method RunEmulator(env: Surroundings, c: UnifyCluster, attributes: seq<nat>, commands: seq<nat>)
    returns (newAttributes: seq<nat>, newCommands: seq<nat>)
    ensures (newAttributes, newCommands) == Emulate(env, c, attributes, commands)
  {
    newAttributes, newCommands := attributes, commands;
    if c in env.emulated {
      if env.emulated[c].clears {
        newAttributes, newCommands := [], [];
        assert [] + env.emulated[c].attributes == env.emulated[c].attributes;
        assert [] + env.emulated[c].commands == env.emulated[c].commands;
      }
      newAttributes := newAttributes + env.emulated[c].attributes;
      newCommands := newCommands + env.emulated[c].commands;
    }
  }

  /** The part of the loop body from the registration on. */
  method RegisterCluster(tr: Translator, env: Surroundings, c: UnifyCluster, id: nat, builder: EndpointBuilder)
    modifies builder
    ensures builder.clusters == old(builder.clusters) + [Mapped(tr, env, c, id)]
  {
    var incoming := Translate(tr.unifyCommands, c.name, c.supported);
    incoming := incoming + [INVALID_COMMAND];
    var attributes := Translate(tr.unifyAttributes, c.name, c.attributes);
    if c.name == "Basic" {
      attributes := attributes + [NODE_LABEL, REACHABLE];
    } else {
      assert attributes + [] == attributes;
    }
    attributes := attributes + [FEATURE_MAP, CLUSTER_REVISION, EVENT_LIST];
    attributes, incoming := RunEmulator(env, c, attributes, incoming);
    builder.OnDone(id, attributes, incoming, env.heap);
  }

  method BuildMatterCluster(tr: Translator, env: Surroundings, clusters: seq<UnifyCluster>, builder: EndpointBuilder)
    requires builder.clusters == []
    modifies builder
    ensures builder.clusters == Built(tr, env, clusters)
  {
    var basicIsSupported := false;
    for i := 0 to |clusters|
      invariant builder.clusters == MappedClusters(tr, env, clusters[..i])
      invariant basicIsSupported <==> BasicMapped(tr, clusters[..i])
    {
      var c := clusters[i];
      assert clusters[..i + 1][..i] == clusters[..i] && c in clusters[..i + 1];
      assert forall b :: b in clusters[..i + 1] <==> b in clusters[..i] || b == c;
      if c.attributes == [] {
        continue;
      }
      if c.name == "NameAndLocation" {
        continue;
      }
      var id := Find(tr.unifyClusters, c.name);
      if id.None? {
        continue;
      }
      if c.name == "Basic" {
        basicIsSupported := true;
      }
      RegisterCluster(tr, env, c, id.value, builder);
    }
    assert clusters[..|clusters|] == clusters;
    if !basicIsSupported {
      builder.OnDone(BRIDGED_BASIC, BasicAttributes(), [], env.heap);
      assert [] + env.heap == env.heap;
    }
    builder.OnDone(DESCRIPTOR, DescriptorAttributes(), [], env.heap);
    assert [] + env.heap == env.heap;
  }

  /** The first of the possible device types, kept in a `uint16_t`. */
  ghost function MatterType(tr: Translator, list: seq<MatterCluster>): Option<nat> {
    var cs := SortScores(Candidates(tr, list, tr.deviceTypes));
    var ids := Selection(cs, |cs|);
    if ids == [] then None else Some(ids[0] % 0x1_0000)
  }

  method GetMatterType(tr: Translator, builder: EndpointBuilder) returns (matterType: Option<nat>)
    requires Mappable(tr, builder.clusters)
    ensures matterType == MatterType(tr, builder.clusters)
  {
    var ids := SelectOnScore(tr, builder.clusters);
    if ids == [] {
      return None;
    }
    return Some(ids[0] % 0x1_0000);
  }

  // ---- Duplicates ------------------------------------------------------------------

  /**
   * A small endpoint becomes the conforming device type of least cost: its clusters that are not
   * there and those there that it does not know, less the required ones it matches. Of several
   * it is one that misses most. Without a conforming type there is none.
   */
  lemma MatterTypeIsCheapest(tr: Translator, list: seq<MatterCluster>)
    requires Small(tr, list)
    ensures match MatterType(tr, list)
      case None => forall dt :: dt in tr.deviceTypes ==> !Conforms(tr, list, dt.clusters)
      case Some(id) => exists best :: IsCheapest(tr, list, best) && id == best.id % 0x1_0000
  {
    SelectedConform(tr, list);
    if MatterType(tr, list).Some? {
      var some :| some in tr.deviceTypes && Conforms(tr, list, some.clusters);
      CheapestTypeFirst(tr, list, some);
    }
  }

  // ---- What is built ---------------------------------------------------------------

  /** Names are translated one by one, in order; unknown ones are left out. */
  lemma {:induction false} TranslateAllAppend(table: Table, cluster: string, names: seq<string>, more: seq<string>)
    ensures TranslateAll(table, cluster, names + more) ==
            TranslateAll(table, cluster, names) + TranslateAll(table, cluster, more)
    decreases |more|
  {
    if more == [] {
      assert names + more == names;
    } else {
      var front := more[..|more| - 1];
      assert (names + more)[..|names + more| - 1] == names + front;
      TranslateAllAppend(table, cluster, names, front);
    }
  }

  lemma TranslateOne(table: Table, cluster: string, name: string)
    ensures TranslateAll(table, cluster, [name]) ==
      if cluster in table && name in table[cluster] then [table[cluster][name]] else []
  {
    assert [name][..0] == [];
    assert TranslateAll(table, cluster, []) == [];
  }

  lemma {:induction false} TranslateAllMembers(table: Table, cluster: string, names: seq<string>, id: nat)
    ensures id in TranslateAll(table, cluster, names) <==>
      cluster in table && exists name :: name in names && name in table[cluster] && table[cluster][name] == id
  {
    if names == [] {
    } else {
      var front, last := names[..|names| - 1], names[|names| - 1];
      assert names == front + [last];
      TranslateAllMembers(table, cluster, front, id);
    }
  }

  /** Under its mapped id, a cluster has the known ones of its attributes and what every cluster is given. */
  lemma MappedAttributes(tr: Translator, env: Surroundings, c: UnifyCluster, id: nat, attribute: nat)
    ensures Mapped(tr, env, c, id).id == id
    ensures attribute in Mapped(tr, env, c, id).attributes <==>
      || (c in env.emulated && attribute in env.emulated[c].attributes)
      || ((c in env.emulated ==> !env.emulated[c].clears)
          && (|| attribute in {0xFFFA, 0xFFFC, 0xFFFD}
              || (c.name == "Basic" && attribute in {0x05, 0x11})
              || (c.name in tr.unifyAttributes
                  && exists name ::
                       && name in c.attributes && name in tr.unifyAttributes[c.name]
                       && tr.unifyAttributes[c.name][name] == attribute)))
  {
    TranslateAllMembers(tr.unifyAttributes, c.name, c.attributes, attribute);
  }

  /** In memory its known commands come first, then the end mark, then what its emulator accepts. */
  lemma MappedCommands(tr: Translator, env: Surroundings, c: UnifyCluster, id: nat)
    ensures var own := TranslateAll(tr.unifyCommands, c.name, c.supported) + [0xFFFF_FFFF];
      Mapped(tr, env, c, id).words == (
        if c !in env.emulated then own + env.heap
        else if env.emulated[c].clears then env.emulated[c].commands + env.heap
        else own + env.emulated[c].commands + env.heap)
  {}

  /** The two clusters no Unify cluster stands for, with their attributes and no commands of their own. */
  lemma AlwaysThere(tr: Translator, env: Surroundings, clusters: seq<UnifyCluster>)
    ensures MatterCluster(0x1D, [0, 1, 2, 3, 0xFFFD], env.heap) in Built(tr, env, clusters)
    ensures (forall c :: c in clusters ==> c.name != "Basic" || c.attributes == [] || c.name !in tr.unifyClusters) ==>
      MatterCluster(0x39, [0x05, 0x11, 0xFFFC, 0xFFFD], env.heap) in Built(tr, env, clusters)
  {
    var list := Built(tr, env, clusters);
    assert list[|list| - 1] == MatterCluster(0x1D, [0, 1, 2, 3, 0xFFFD], env.heap);
    if !BasicMapped(tr, clusters) {
      assert list[|list| - 2] == MatterCluster(0x39, [0x05, 0x11, 0xFFFC, 0xFFFD], env.heap);
    }
  }

  /** The ids of the list built: those of the clusters with attributes and a known name, and the two always there. */
  lemma BuiltIds(tr: Translator, env: Surroundings, clusters: seq<UnifyCluster>, id: nat)
    ensures id in Ids(Built(tr, env, clusters)) <==>
      || id == 0x1D
      || (id == 0x39 && forall c :: c in clusters ==>
            c.name != "Basic" || c.attributes == [] || c.name !in tr.unifyClusters)
      || exists c :: c in clusters && c.attributes != [] && c.name != "NameAndLocation"
           && c.name in tr.unifyClusters && tr.unifyClusters[c.name] == id
  {
    var list, mapped := Built(tr, env, clusters), MappedClusters(tr, env, clusters);
    MappedIdsAre(tr, env, clusters);
    MappedIdsMembers(tr, clusters, id);
    assert IsMappedFrom(tr, clusters, id) <==>
      exists c :: c in clusters && c.attributes != [] && c.name != "NameAndLocation"
        && c.name in tr.unifyClusters && tr.unifyClusters[c.name] == id;
    if id in Ids(list) {
      var i :| 0 <= i < |list| && list[i].id == id;
      if i < |mapped| {
        assert MappedIds(tr, clusters)[i] == id;
      }
    }
    if id in MappedIds(tr, clusters) {
      var i :| 0 <= i < |mapped| && MappedIds(tr, clusters)[i] == id;
      assert list[i] == mapped[i];
    }
    assert list[|list| - 1].id == 0x1D;
    if !BasicMapped(tr, clusters) {
      assert list[|list| - 2].id == 0x39;
    }
  }

  /** The ids mapped from the cluster names, in order. */
  function MappedIds(tr: Translator, clusters: seq<UnifyCluster>): seq<nat> {
    if clusters == [] then []
    else
      var rest := MappedIds(tr, clusters[..|clusters| - 1]);
      match MappedId(tr, clusters[|clusters| - 1])
      case Some(id) => rest + [id]
      case None => rest
  }

  ghost predicate AllDistinct(ids: seq<nat>) {
    forall i, j :: 0 <= i < j < |ids| ==> ids[i] != ids[j]
  }

  lemma {:induction false} MappedIdsAre(tr: Translator, env: Surroundings, clusters: seq<UnifyCluster>)
    ensures |MappedIds(tr, clusters)| == |MappedClusters(tr, env, clusters)|
    ensures forall i :: 0 <= i < |MappedIds(tr, clusters)| ==>
      MappedClusters(tr, env, clusters)[i].id == MappedIds(tr, clusters)[i]
  {
    if clusters == [] {
    } else {
      MappedIdsAre(tr, env, clusters[..|clusters| - 1]);
    }
  }

  ghost predicate IsMappedFrom(tr: Translator, clusters: seq<UnifyCluster>, id: nat) {
    exists c :: c in clusters && MappedId(tr, c) == Some(id)
  }

  lemma {:induction false} MappedIdsMembers(tr: Translator, clusters: seq<UnifyCluster>, id: nat)
    ensures id in MappedIds(tr, clusters) <==> IsMappedFrom(tr, clusters, id)
  {
    if clusters == [] {
    } else {
      var front, last := clusters[..|clusters| - 1], clusters[|clusters| - 1];
      MappedIdsMembers(tr, front, id);
      assert clusters == front + [last];
      assert last in clusters;
      if IsMappedFrom(tr, front, id) {
        var c :| c in front && MappedId(tr, c) == Some(id);
        assert c in clusters;
      }
    }
  }

  /**
   * The built list has no duplicates, which the scores rely on, exactly when the mapped ids are
   * distinct, none is the Descriptor's, and only a mapped Basic cluster brings the bridged basic id.
   */
  lemma BuiltWithoutDuplicates(tr: Translator, env: Surroundings, clusters: seq<UnifyCluster>)
    ensures NoDuplicates(Built(tr, env, clusters)) <==>
      var ids := MappedIds(tr, clusters);
      AllDistinct(ids) && DESCRIPTOR !in ids && (BasicMapped(tr, clusters) || BRIDGED_BASIC !in ids)
  {
    var list, mapped, ids := Built(tr, env, clusters), MappedClusters(tr, env, clusters), MappedIds(tr, clusters);
    MappedIdsAre(tr, env, clusters);
    assert forall i :: 0 <= i < |ids| ==> list[i].id == ids[i];
    assert list[|list| - 1].id == DESCRIPTOR;
    assert !BasicMapped(tr, clusters) ==> |list| == |ids| + 2 && list[|ids|].id == BRIDGED_BASIC;
    assert BasicMapped(tr, clusters) ==> |list| == |ids| + 1;
    if NoDuplicates(list) {
      forall i, j | 0 <= i < j < |ids|
        ensures ids[i] != ids[j]
      {
        assert list[i].id != list[j].id;
      }
    }
  }

  /** The clusters of an endpoint are keyed by name. */
  ghost predicate DistinctNames(clusters: seq<UnifyCluster>) {
    forall i, j :: 0 <= i < j < |clusters| ==> clusters[i].name != clusters[j].name
  }

  /** What the name table is meant to be: injective, without the Descriptor, with the bridged basic id for Basic only. */
  ghost predicate SoundTable(tr: Translator) {
    && (forall a, b :: a in tr.unifyClusters && b in tr.unifyClusters ==>
          tr.unifyClusters[a] == tr.unifyClusters[b] ==> a == b)
    && (forall a :: a in tr.unifyClusters ==> tr.unifyClusters[a] != DESCRIPTOR)
    && (forall a :: a in tr.unifyClusters && tr.unifyClusters[a] == BRIDGED_BASIC ==> a == "Basic")
  }

  lemma {:induction false} SoundTableDistinct(tr: Translator, clusters: seq<UnifyCluster>)
    requires DistinctNames(clusters) && SoundTable(tr)
    ensures AllDistinct(MappedIds(tr, clusters))
  {
    if clusters == [] {
    } else {
      var front, last := clusters[..|clusters| - 1], clusters[|clusters| - 1];
      SoundTableDistinct(tr, front);
      if MappedId(tr, last).Some? {
        MappedIdsMembers(tr, front, MappedId(tr, last).value);
      }
      forall c | c in front
        ensures MappedId(tr, last).Some? ==> MappedId(tr, c) != MappedId(tr, last)
      {
        var i :| 0 <= i < |front| && clusters[i] == c;
        assert c.name != last.name;
      }
    }
  }

  /** With such a table every endpoint's list is free of duplicates. */
  lemma SoundTableSuffices(tr: Translator, env: Surroundings, clusters: seq<UnifyCluster>)
    requires DistinctNames(clusters) && SoundTable(tr)
    ensures NoDuplicates(Built(tr, env, clusters))
  {
    MappedIdsMembers(tr, clusters, DESCRIPTOR);
    MappedIdsMembers(tr, clusters, BRIDGED_BASIC);
    SoundTableDistinct(tr, clusters);
    BuiltWithoutDuplicates(tr, env, clusters);
  }

  // ---- The order of the clusters -----------------------------------------------------

  lemma {:induction false} MappedAppend(tr: Translator, env: Surroundings, a: seq<UnifyCluster>, b: seq<UnifyCluster>)
    ensures MappedClusters(tr, env, a + b) == MappedClusters(tr, env, a) + MappedClusters(tr, env, b)
    decreases |b|
  {
    if b == [] {
      assert a + b == a;
    } else {
      var front := b[..|b| - 1];
      assert (a + b)[..|a + b| - 1] == a + front;
      MappedAppend(tr, env, a, front);
    }
  }

  /** Where the last element of a sequence stands in a permutation of it, and that the rest permutes too. */
  lemma TakeOutLast<T>(s: seq<T>, other: seq<T>) returns (a: seq<T>, b: seq<T>)
    requires s != [] && multiset(s) == multiset(other)
    ensures other == a + [s[|s| - 1]] + b
    ensures multiset(s[..|s| - 1]) == multiset(a + b)
  {
    var front, last := s[..|s| - 1], s[|s| - 1];
    assert s == front + [last];
    assert last in multiset(other);
    var k :| 0 <= k < |other| && other[k] == last;
    a, b := other[..k], other[k + 1..];
    assert other == a + [last] + b;
    assert multiset(s) == multiset(front) + multiset{last};
    assert multiset(other) == multiset(a) + multiset{last} + multiset(b);
    assert multiset(front) == multiset(s) - multiset{last};
    assert multiset(a + b) == multiset(other) - multiset{last};
  }

  lemma MultisetMiddle<T>(x: seq<T>, y: seq<T>, z: seq<T>)
    ensures multiset(x + y + z) == multiset(x + z) + multiset(y)
  {}

  lemma MappedMiddle(tr: Translator, env: Surroundings, a: seq<UnifyCluster>, c: UnifyCluster, b: seq<UnifyCluster>)
    ensures multiset(MappedClusters(tr, env, a + [c] + b)) ==
            multiset(MappedClusters(tr, env, a + b)) + multiset(MappedClusters(tr, env, [c]))
  {
    MappedAppend(tr, env, a, b);
    MappedAppend(tr, env, a + [c], b);
    MappedAppend(tr, env, a, [c]);
    MultisetMiddle(MappedClusters(tr, env, a), MappedClusters(tr, env, [c]), MappedClusters(tr, env, b));
  }

  lemma MappedLast(tr: Translator, env: Surroundings, clusters: seq<UnifyCluster>)
    requires clusters != []
    ensures multiset(MappedClusters(tr, env, clusters)) ==
            multiset(MappedClusters(tr, env, clusters[..|clusters| - 1]))
            + multiset(MappedClusters(tr, env, [clusters[|clusters| - 1]]))
  {
    var front, last := clusters[..|clusters| - 1], clusters[|clusters| - 1];
    assert front + [last] + [] == clusters && front + [] == front;
    MappedMiddle(tr, env, front, last, []);
  }

  lemma {:induction false} MappedPermutes(
    tr: Translator, env: Surroundings, clusters: seq<UnifyCluster>, others: seq<UnifyCluster>)
    requires multiset(clusters) == multiset(others)
    ensures multiset(MappedClusters(tr, env, clusters)) == multiset(MappedClusters(tr, env, others))
    decreases |clusters|
  {
    if clusters == [] {
      assert |multiset(others)| == 0;
    } else {
      var a, b := TakeOutLast(clusters, others);
      MappedLast(tr, env, clusters);
      MappedMiddle(tr, env, a, clusters[|clusters| - 1], b);
      MappedPermutes(tr, env, clusters[..|clusters| - 1], a + b);
    }
  }

  lemma BuiltPermutes(tr: Translator, env: Surroundings, clusters: seq<UnifyCluster>, others: seq<UnifyCluster>)
    requires multiset(clusters) == multiset(others)
    ensures multiset(Built(tr, env, clusters)) == multiset(Built(tr, env, others))
  {
    MappedPermutes(tr, env, clusters, others);
    forall c
      ensures c in clusters <==> c in others
    {
      assert c in multiset(clusters) <==> c in multiset(others);
    }
  }

  /** The Matter type does not depend on the order in which the unordered map yields the clusters. */
  lemma MatterTypeIgnoresOrder(tr: Translator, env: Surroundings, clusters: seq<UnifyCluster>, others: seq<UnifyCluster>)
    requires multiset(clusters) == multiset(others)
    requires NoDuplicates(Built(tr, env, clusters))
    ensures MatterType(tr, Built(tr, env, clusters)) == MatterType(tr, Built(tr, env, others))
  {
    BuiltPermutes(tr, env, clusters, others);
    ChoiceIgnoresOrder(tr, Built(tr, env, clusters), Built(tr, env, others));
  }
}
