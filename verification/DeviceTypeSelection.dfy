/** Scoring a list of Matter clusters against the known device types and choosing among them. */
module DeviceTypeSelection {
  import opened Text

  // ---- The data --------------------------------------------------------------------

  datatype DeviceCluster = DeviceCluster(name: string, mandatory: bool, commands: seq<string>, attributes: seq<string>)

  datatype DeviceType = DeviceType(id: nat, clusters: seq<DeviceCluster>)

  type Table = map<string, map<string, nat>>

  /** The translation tables, and the device types in the order of their map. */
  datatype Translator = Translator(
    unifyClusters: map<string, nat>, unifyCommands: Table, unifyAttributes: Table,
    matterClusters: map<string, nat>, matterCommands: Table, matterAttributes: Table,
    additional: map<string, seq<string>>, deviceTypes: seq<DeviceType>, specCompliant: bool)

  /** `words` is what memory holds from the accepted-command pointer on: the list, and whatever comes after it. */
  datatype MatterCluster = MatterCluster(id: nat, attributes: seq<nat>, words: seq<nat>)

  datatype Score = Score(extra: nat, miss: nat, required: nat, deviceType: nat)

  /** `sizeof(commands)`: the size of a pointer, whatever the length of the list. */
  const COMMAND_SCAN: nat := 8
  /** `end_of_vector`, -1 in a `uint8_t`. */
  const END_OF_VECTOR: nat := 0xFF
  const SKEW: nat := 20

  function Find<V>(table: map<string, V>, name: string): Option<V> {
    if name in table then Some(table[name]) else None
  }

  function Find2(table: Table, cluster: string, name: string): Option<nat> {
    if cluster in table then Find(table[cluster], name) else None
  }

  function ClusterId(tr: Translator, dc: DeviceCluster): Option<nat> {
    Find(tr.matterClusters, dc.name)
  }

  // ---- Counting matches ------------------------------------------------------------

  function FirstMatch(tr: Translator, id: nat, dcs: seq<DeviceCluster>): Option<DeviceCluster> {
    if dcs == [] then None
    else if ClusterId(tr, dcs[0]) == Some(id) then Some(dcs[0])
    else FirstMatch(tr, id, dcs[1..])
  }

  function Compared(tr: Translator, id: nat, dcs: seq<DeviceCluster>, onlyRequired: bool): nat {
    match FirstMatch(tr, id, dcs)
    case None => 0
    case Some(dc) => if onlyRequired && !dc.mandatory then 0 else 1
  }

  function Matches(tr: Translator, list: seq<MatterCluster>, dcs: seq<DeviceCluster>, onlyRequired: bool): nat {
    if list == [] then 0
    else Matches(tr, list[..|list| - 1], dcs, onlyRequired) + Compared(tr, list[|list| - 1].id, dcs, onlyRequired)
  }

  method CompareClusters(tr: Translator, id: nat, dcs: seq<DeviceCluster>, onlyRequired: bool) returns (count: nat)
    ensures count == Compared(tr, id, dcs, onlyRequired)
  {
    var i := 0;
    while i < |dcs|
      invariant i <= |dcs|
      invariant FirstMatch(tr, id, dcs) == FirstMatch(tr, id, dcs[i..])
    {
      var deviceClusterId := ClusterId(tr, dcs[i]);
      if deviceClusterId.Some? && id == deviceClusterId.value {
        if onlyRequired && dcs[i].mandatory {
          return 1;
        } else if !onlyRequired {
          return 1;
        }
        return 0;
      }
      i := i + 1;
    }
    return 0;
  }

  /** The counter is a `uint8_t`. */
  method ScoreComparisons(tr: Translator, list: seq<MatterCluster>, dcs: seq<DeviceCluster>, onlyRequired: bool)
    returns (count: nat)
    ensures count == Matches(tr, list, dcs, onlyRequired) % 0x100
  {
    count := 0;
    for i := 0 to |list|
      invariant count == Matches(tr, list[..i], dcs, onlyRequired) % 0x100
    {
      var one := CompareClusters(tr, list[i].id, dcs, onlyRequired);
      assert Matches(tr, list[..i + 1], dcs, onlyRequired) == Matches(tr, list[..i], dcs, onlyRequired) + one by {
        assert list[..i + 1][..i] == list[..i];
      }
      count := (count + one) % 0x100;
    }
    assert list[..|list|] == list;
  }

  // ---- Conformance -----------------------------------------------------------------

  ghost predicate HasAttributes(tr: Translator, c: MatterCluster, name: string, required: seq<string>) {
    forall a :: a in required ==>
      Find2(tr.matterAttributes, name, a).Some? && Find2(tr.matterAttributes, name, a).value in c.attributes
  }

  /** The scan gets to look at word i: no word up to it is the end mark. */
  ghost predicate Reached(words: seq<nat>, i: nat) {
    i < |words| && forall j :: 0 <= j <= i ==> words[j] != END_OF_VECTOR
  }

  ghost predicate ScanFinds(words: seq<nat>, id: nat) {
    exists i :: 0 <= i < COMMAND_SCAN && Reached(words, i) && words[i] == id
  }

  ghost predicate HasCommands(tr: Translator, c: MatterCluster, name: string, required: seq<string>) {
    forall a :: a in required ==>
      Find2(tr.matterCommands, name, a).Some? && ScanFinds(c.words, Find2(tr.matterCommands, name, a).value)
  }

  ghost predicate HasAdditional(tr: Translator, c: MatterCluster, name: string) {
    name in tr.additional ==> HasAttributes(tr, c, name, tr.additional[name])
  }

  ghost predicate Fulfils(tr: Translator, c: MatterCluster, dc: DeviceCluster) {
    && HasAttributes(tr, c, dc.name, dc.attributes)
    && HasCommands(tr, c, dc.name, dc.commands)
    && HasAdditional(tr, c, dc.name)
  }

  function Position(list: seq<MatterCluster>, id: nat): nat {
    if list == [] || list[0].id == id then 0 else 1 + Position(list[1..], id)
  }

  lemma {:induction false} PositionIsFirst(list: seq<MatterCluster>, id: nat)
    ensures Position(list, id) <= |list|
    ensures Position(list, id) < |list| ==> list[Position(list, id)].id == id
    ensures forall i :: 0 <= i < Position(list, id) ==> list[i].id != id
  {
    if list != [] && list[0].id != id {
      PositionIsFirst(list[1..], id);
    }
  }

  ghost predicate Satisfied(tr: Translator, list: seq<MatterCluster>, dc: DeviceCluster) {
    && ClusterId(tr, dc).Some?
    && (tr.specCompliant ==>
          Position(list, ClusterId(tr, dc).value) < |list|
          && Fulfils(tr, list[Position(list, ClusterId(tr, dc).value)], dc))
  }

  /** Only mandatory clusters count, and unless strict mapping is on only their names. */
  ghost predicate Conforms(tr: Translator, list: seq<MatterCluster>, dcs: seq<DeviceCluster>) {
    forall dc :: dc in dcs && dc.mandatory ==> Satisfied(tr, list, dc)
  }

  /** What strict mapping needs: its narrow loop counters cover the lists, and the scan stays inside `words`. */
  predicate Scannable(c: MatterCluster) {
    |c.attributes| <= 255 && |c.words| >= COMMAND_SCAN
  }

  predicate Mappable(tr: Translator, list: seq<MatterCluster>) {
    tr.specCompliant ==> |list| <= 128 && forall i :: 0 <= i < |list| ==> Scannable(list[i])
  }

  /** An `int8_t` index: -1 when absent. */
  method ClusterIndex(id: nat, list: seq<MatterCluster>) returns (index: int)
    requires |list| <= 128
    ensures Position(list, id) <= |list|
    ensures index == if Position(list, id) < |list| then Position(list, id) else -1
  {
    PositionIsFirst(list, id);
    for i := 0 to |list|
      invariant i <= Position(list, id)
    {
      if list[i].id == id {
        return i;
      }
    }
    return -1;
  }

  /** The loop counter is a `uint8_t`. */
  method AttributePresent(attributes: seq<nat>, id: nat) returns (found: bool)
    requires |attributes| <= 255
    ensures found <==> id in attributes
  {
    var i := 0;
    while i < |attributes|
      invariant i <= |attributes|
      invariant id !in attributes[..i]
      decreases |attributes| - i
    {
      if attributes[i] == id {
        return true;
      }
      i := (i + 1) % 0x100;
    }
    assert attributes[..i] == attributes;
    return false;
  }

  method CompareAttributes(tr: Translator, c: MatterCluster, name: string, required: seq<string>) returns (ok: bool)
    requires |c.attributes| <= 255
    ensures ok <==> HasAttributes(tr, c, name, required)
  {
    for k := 0 to |required|
      invariant HasAttributes(tr, c, name, required[..k])
    {
      assert required[k] in required && required[..k + 1] == required[..k] + [required[k]];
      var id := Find2(tr.matterAttributes, name, required[k]);
      if id.None? {
        return false;
      }
      var found := AttributePresent(c.attributes, id.value);
      if !found {
        return false;
      }
    }
    assert required[..|required|] == required;
    return true;
  }

  method CommandPresent(words: seq<nat>, id: nat) returns (found: bool)
    requires |words| >= COMMAND_SCAN
    ensures found <==> ScanFinds(words, id)
  {
    for i := 0 to COMMAND_SCAN
      invariant forall j :: 0 <= j < i ==> words[j] != END_OF_VECTOR && words[j] != id
    {
      if words[i] == END_OF_VECTOR {
        return false;
      }
      if words[i] == id {
        assert Reached(words, i);
        return true;
      }
    }
    return false;
  }

  method CompareCommands(tr: Translator, c: MatterCluster, name: string, required: seq<string>) returns (ok: bool)
    requires |c.words| >= COMMAND_SCAN
    ensures ok <==> HasCommands(tr, c, name, required)
  {
    for k := 0 to |required|
      invariant HasCommands(tr, c, name, required[..k])
    {
      assert required[k] in required && required[..k + 1] == required[..k] + [required[k]];
      var id := Find2(tr.matterCommands, name, required[k]);
      if id.None? {
        return false;
      }
      var found := CommandPresent(c.words, id.value);
      if !found {
        return false;
      }
    }
    assert required[..|required|] == required;
    return true;
  }

  method ConformsToDeviceType(tr: Translator, list: seq<MatterCluster>, dcs: seq<DeviceCluster>) returns (ok: bool)
    requires Mappable(tr, list)
    ensures ok <==> Conforms(tr, list, dcs)
  {
    for k := 0 to |dcs|
      invariant Conforms(tr, list, dcs[..k])
    {
      var dc := dcs[k];
      assert dc in dcs && dcs[..k + 1] == dcs[..k] + [dc];
      if !dc.mandatory {
        continue;
      }
      var id := ClusterId(tr, dc);
      if id.None? {
        return false;
      }
      if !tr.specCompliant {
        continue;
      }
      var index := ClusterIndex(id.value, list);
      if index == -1 {
        return false;
      }
      var ok1 := CompareAttributes(tr, list[index], dc.name, dc.attributes);
      if !ok1 {
        return false;
      }
      var ok2 := CompareCommands(tr, list[index], dc.name, dc.commands);
      if !ok2 {
        return false;
      }
      if dc.name in tr.additional {
        var ok3 := CompareAttributes(tr, list[index], dc.name, tr.additional[dc.name]);
        if !ok3 {
          return false;
        }
      }
    }
    assert dcs[..|dcs|] == dcs;
    return true;
  }

  // ---- Scores ----------------------------------------------------------------------

  /** The differences are `unsigned int`; the counts they start from are `uint8_t`. */
  function ScoreOf(tr: Translator, list: seq<MatterCluster>, dt: DeviceType): Score {
    var matched := Matches(tr, list, dt.clusters, false) % 0x100;
    Score((|list| - matched) % 0x1_0000_0000, (|dt.clusters| - matched) % 0x1_0000_0000,
          Matches(tr, list, dt.clusters, true) % 0x100, dt.id)
  }

  ghost function Candidates(tr: Translator, list: seq<MatterCluster>, dts: seq<DeviceType>): seq<Score> {
    if dts == [] then []
    else
      Candidates(tr, list, dts[..|dts| - 1])
      + (if Conforms(tr, list, dts[|dts| - 1].clusters) then [ScoreOf(tr, list, dts[|dts| - 1])] else [])
  }

  /** Fewest misses first, then most required matches, then fewest extra clusters. */
  predicate Before(a: Score, b: Score) {
    if a.miss != b.miss then a.miss < b.miss
    else if a.required != b.required then a.required > b.required
    else a.extra < b.extra
  }

  function Insert(s: Score, sorted: seq<Score>): seq<Score> {
    if sorted == [] then [s]
    else if Before(sorted[0], s) then [sorted[0]] + Insert(s, sorted[1..])
    else [s] + sorted
  }

  /** The library sort, as the stable sort by the order its comparison is meant to give. */
  function SortScores(scores: seq<Score>): seq<Score> {
    if scores == [] then [] else Insert(scores[0], SortScores(scores[1..]))
  }

  method ComputeScores(tr: Translator, list: seq<MatterCluster>) returns (scores: seq<Score>)
    requires Mappable(tr, list)
    ensures scores == SortScores(Candidates(tr, list, tr.deviceTypes))
  {
    scores := [];
    for k := 0 to |tr.deviceTypes|
      invariant scores == Candidates(tr, list, tr.deviceTypes[..k])
    {
      var dt := tr.deviceTypes[k];
      assert tr.deviceTypes[..k + 1][..k] == tr.deviceTypes[..k];
      var conforms := ConformsToDeviceType(tr, list, dt.clusters);
      if !conforms {
        continue;
      }
      var matched := ScoreComparisons(tr, list, dt.clusters, false);
      var required := ScoreComparisons(tr, list, dt.clusters, true);
      var extra := (|list| - matched) % 0x1_0000_0000;
      var miss := (|dt.clusters| - matched) % 0x1_0000_0000;
      scores := scores + [Score(extra, miss, required, dt.id)];
    }
    assert tr.deviceTypes[..|tr.deviceTypes|] == tr.deviceTypes;
    scores := SortScores(scores);
  }

  // ---- The choice ------------------------------------------------------------------

  function ExactScore(s: Score): int {
    SKEW + s.miss + s.extra - s.required
  }

  /** The sum is computed in `unsigned int` and kept in a `uint8_t`. */
  function NumericalScore(s: Score): nat {
    (ExactScore(s) % 0x1_0000_0000) % 0x100
  }

  method Numerical(s: Score) returns (score: nat)
    ensures score == NumericalScore(s)
  {
    var sum := (SKEW + s.miss + s.extra - s.required) % 0x1_0000_0000;
    return sum % 0x100;
  }

  /** No earlier candidate scores lower. */
  ghost predicate IsRecord(cs: seq<Score>, i: nat) {
    i < |cs| && forall j :: 0 <= j < i ==> NumericalScore(cs[j]) >= NumericalScore(cs[i])
  }

  /** The records among the first n candidates, latest first. */
  ghost function Records(cs: seq<Score>, n: nat): seq<nat>
    requires n <= |cs|
  {
    if n == 0 then [] else (if IsRecord(cs, n - 1) then [n - 1] else []) + Records(cs, n - 1)
  }

  /** Their device types: the list returned once n candidates have been looked at. */
  ghost function Selection(cs: seq<Score>, n: nat): seq<nat>
    requires n <= |cs|
  {
    if n == 0 then []
    else (if IsRecord(cs, n - 1) then [cs[n - 1].deviceType] else []) + Selection(cs, n - 1)
  }

  /** With the best of the first i candidates at hand, one comparison decides whether the next is a record. */
  lemma SelectionStep(cs: seq<Score>, best: nat, i: nat)
    requires best < i < |cs| && forall j :: 0 <= j < i ==> NumericalScore(cs[best]) <= NumericalScore(cs[j])
    ensures Selection(cs, i + 1) ==
      (if NumericalScore(cs[best]) >= NumericalScore(cs[i]) then [cs[i].deviceType] else []) + Selection(cs, i)
  {}

  lemma SelectionStart(cs: seq<Score>)
    requires cs != []
    ensures Selection(cs, 1) == [cs[0].deviceType]
  {
    assert Selection(cs, 0) == [];
  }

  method SelectOnScore(tr: Translator, list: seq<MatterCluster>) returns (ids: seq<nat>)
    requires Mappable(tr, list)
    ensures var cs := SortScores(Candidates(tr, list, tr.deviceTypes)); ids == Selection(cs, |cs|)
  {
    var scores := ComputeScores(tr, list);
    ids := [];
    if scores != [] {
      var best := 0;
      ids := ids + [scores[best].deviceType];
      SelectionStart(scores);
      var i := best + 1;
      while i < |scores|
        invariant best < i <= |scores|
        invariant forall j :: 0 <= j < i ==> NumericalScore(scores[best]) <= NumericalScore(scores[j])
        invariant ids == Selection(scores, i)
      {
        SelectionStep(scores, best, i);
        var bestScore := Numerical(scores[best]);
        var score := Numerical(scores[i]);
        if bestScore >= score {
          best := i;
          ids := [scores[i].deviceType] + ids;
        }
        i := i + 1;
      }
    }
  }
}
