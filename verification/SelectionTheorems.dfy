/** What the scores count, what the choice promises, and that the order of the input does not matter. */
module SelectionTheorems {
  import opened Text
  import opened DeviceTypeSelection

  // ---- Scores are cardinalities ----------------------------------------------------

  function Ids(list: seq<MatterCluster>): set<nat> {
    set i | 0 <= i < |list| :: list[i].id
  }

  ghost predicate NoDuplicates(list: seq<MatterCluster>) {
    forall i, j :: 0 <= i < j < |list| ==> list[i].id != list[j].id
  }

  /** The ids a device type knows, and those whose first listing is mandatory. */
  function DeviceIds(tr: Translator, dcs: seq<DeviceCluster>): set<nat> {
    set i | 0 <= i < |dcs| && ClusterId(tr, dcs[i]).Some? :: ClusterId(tr, dcs[i]).value
  }

  function RequiredIds(tr: Translator, dcs: seq<DeviceCluster>): set<nat> {
    set id | id in DeviceIds(tr, dcs) && FirstMatch(tr, id, dcs).Some? && FirstMatch(tr, id, dcs).value.mandatory
  }

  function CountedIds(tr: Translator, dcs: seq<DeviceCluster>, onlyRequired: bool): set<nat> {
    if onlyRequired then RequiredIds(tr, dcs) else DeviceIds(tr, dcs)
  }

  lemma {:induction false} FirstMatchSpec(tr: Translator, id: nat, dcs: seq<DeviceCluster>)
    ensures FirstMatch(tr, id, dcs).Some? <==> id in DeviceIds(tr, dcs)
    ensures FirstMatch(tr, id, dcs).Some? ==>
      FirstMatch(tr, id, dcs).value in dcs && ClusterId(tr, FirstMatch(tr, id, dcs).value) == Some(id)
  {
    if dcs == [] {
    } else {
      var tail := dcs[1..];
      FirstMatchSpec(tr, id, tail);
      assert forall i :: 0 <= i < |tail| ==> tail[i] == dcs[i + 1];
      if id in DeviceIds(tr, dcs) && ClusterId(tr, dcs[0]) != Some(id) {
        var i :| 0 <= i < |dcs| && ClusterId(tr, dcs[i]) == Some(id);
        assert tail[i - 1] == dcs[i];
      }
      if id in DeviceIds(tr, tail) {
        var i :| 0 <= i < |tail| && ClusterId(tr, tail[i]) == Some(id);
        assert dcs[i + 1] == tail[i];
      }
    }
  }

  /** The device type lists this cluster at position i, and not before. */
  ghost predicate ListedFirst(tr: Translator, dcs: seq<DeviceCluster>, id: nat, i: nat) {
    && i < |dcs| && dcs[i].name in tr.matterClusters && tr.matterClusters[dcs[i].name] == id
    && forall j :: 0 <= j < i && dcs[j].name in tr.matterClusters ==> tr.matterClusters[dcs[j].name] != id
  }

  lemma {:induction false} FirstMatchIsFirst(tr: Translator, id: nat, dcs: seq<DeviceCluster>) returns (i: nat)
    requires FirstMatch(tr, id, dcs).Some?
    ensures ListedFirst(tr, dcs, id, i) && FirstMatch(tr, id, dcs).value == dcs[i]
  {
    if ClusterId(tr, dcs[0]) == Some(id) {
      i := 0;
    } else {
      var tail := dcs[1..];
      var k := FirstMatchIsFirst(tr, id, tail);
      i := k + 1;
      assert forall j :: 0 < j < |dcs| ==> dcs[j] == tail[j - 1];
    }
  }

  /** A cluster is required exactly when its first listing is mandatory. */
  lemma RequiredAreFirst(tr: Translator, dcs: seq<DeviceCluster>, id: nat)
    ensures id in DeviceIds(tr, dcs) <==> exists i: nat :: ListedFirst(tr, dcs, id, i)
    ensures id in RequiredIds(tr, dcs) <==> exists i: nat :: ListedFirst(tr, dcs, id, i) && dcs[i].mandatory
  {
    FirstMatchSpec(tr, id, dcs);
    if id in DeviceIds(tr, dcs) {
      var i := FirstMatchIsFirst(tr, id, dcs);
      assert forall k: nat :: ListedFirst(tr, dcs, id, k) ==> k == i;
    } else {
      forall i: nat
        ensures !ListedFirst(tr, dcs, id, i)
      {
        assert i < |dcs| && dcs[i].name in tr.matterClusters ==> ClusterId(tr, dcs[i]) != Some(id);
      }
    }
  }

  lemma ComparedIsMembership(tr: Translator, id: nat, dcs: seq<DeviceCluster>, onlyRequired: bool)
    ensures Compared(tr, id, dcs, onlyRequired) == if id in CountedIds(tr, dcs, onlyRequired) then 1 else 0
  {
    FirstMatchSpec(tr, id, dcs);
  }

  lemma IdsSnoc(list: seq<MatterCluster>)
    requires list != [] && NoDuplicates(list)
    ensures NoDuplicates(list[..|list| - 1])
    ensures Ids(list) == Ids(list[..|list| - 1]) + {list[|list| - 1].id}
    ensures list[|list| - 1].id !in Ids(list[..|list| - 1])
  {
    var front := list[..|list| - 1];
    forall id | id in Ids(list)
      ensures id in Ids(front) + {list[|list| - 1].id}
    {
      var i :| 0 <= i < |list| && list[i].id == id;
      if i < |front| {
        assert front[i].id == id;
      }
    }
    forall id | id in Ids(front)
      ensures id in Ids(list)
    {
      var i :| 0 <= i < |front| && front[i].id == id;
      assert list[i].id == id;
    }
  }

  lemma AddOne(a: set<nat>, x: nat, c: set<nat>)
    requires x !in a
    ensures |a + {x}| == |a| + 1
    ensures |(a + {x}) * c| == |a * c| + if x in c then 1 else 0
  {
    if x in c {
      assert (a + {x}) * c == a * c + {x};
    } else {
      assert (a + {x}) * c == a * c;
    }
  }

  /** For a list without duplicates, the match count is the size of an intersection. */
  lemma {:induction false} MatchesAreIntersection(
    tr: Translator, list: seq<MatterCluster>, dcs: seq<DeviceCluster>, onlyRequired: bool)
    requires NoDuplicates(list)
    ensures Matches(tr, list, dcs, onlyRequired) == |Ids(list) * CountedIds(tr, dcs, onlyRequired)|
    ensures |Ids(list)| == |list|
  {
    if list == [] {
      assert Ids(list) == {};
    } else {
      var last := list[|list| - 1].id;
      IdsSnoc(list);
      MatchesAreIntersection(tr, list[..|list| - 1], dcs, onlyRequired);
      ComparedIsMembership(tr, last, dcs, onlyRequired);
      AddOne(Ids(list[..|list| - 1]), last, CountedIds(tr, dcs, onlyRequired));
    }
  }

  lemma SubsetSize(a: set<nat>, b: set<nat>)
    requires a <= b
    ensures |a| <= |b|
  {
    assert b == a + (b - a);
  }

  lemma {:induction false} DeviceIdsSize(tr: Translator, dcs: seq<DeviceCluster>)
    ensures |DeviceIds(tr, dcs)| <= |dcs|
  {
    if dcs == [] {
      assert DeviceIds(tr, dcs) == {};
    } else {
      var front, last := dcs[..|dcs| - 1], ClusterId(tr, dcs[|dcs| - 1]);
      DeviceIdsSize(tr, front);
      var more := if last.Some? then {last.value} else {};
      forall id | id in DeviceIds(tr, dcs)
        ensures id in DeviceIds(tr, front) + more
      {
        var i :| 0 <= i < |dcs| && ClusterId(tr, dcs[i]) == Some(id);
        if i < |front| {
          assert front[i] == dcs[i];
        }
      }
      SubsetSize(DeviceIds(tr, dcs), DeviceIds(tr, front) + more);
    }
  }

  lemma Sizes(ids: set<nat>, known: set<nat>, required: set<nat>)
    requires required <= known
    ensures |ids * known| <= |ids| && |ids * known| <= |known| && |ids * required| <= |ids * known|
    ensures |ids - known| == |ids| - |ids * known|
  {
    SubsetSize(ids * known, ids);
    SubsetSize(ids * known, known);
    SubsetSize(ids * required, ids * known);
    assert ids == ids * known + (ids - known);
  }

  lemma NoWrap(size: nat, deviceSize: nat, matched: nat, required: nat)
    requires required <= matched <= size <= 255 && matched <= deviceSize < 0x1_0000_0000
    ensures matched % 0x100 == matched && required % 0x100 == required
    ensures (size - matched) % 0x1_0000_0000 == size - matched
    ensures (deviceSize - matched) % 0x1_0000_0000 == deviceSize - matched
  {}

  lemma ScoreUnwrapped(tr: Translator, list: seq<MatterCluster>, dt: DeviceType, matched: nat, required: nat)
    requires matched == Matches(tr, list, dt.clusters, false) && required == Matches(tr, list, dt.clusters, true)
    requires required <= matched <= |list| <= 255 && matched <= |dt.clusters| < 0x1_0000_0000
    ensures ScoreOf(tr, list, dt) == Score(|list| - matched, |dt.clusters| - matched, required, dt.id)
  {
    NoWrap(|list|, |dt.clusters|, matched, required);
  }

  /**
   * No counter wraps and no difference underflows: extra, missed and required are the sizes of
   * the sets their names say, and required matches are matches.
   */
  lemma ScoresAreCardinalities(tr: Translator, list: seq<MatterCluster>, dt: DeviceType)
    requires NoDuplicates(list) && |list| <= 255 && |dt.clusters| < 0x1_0000_0000
    ensures var s := ScoreOf(tr, list, dt);
      && s.extra == |Ids(list) - DeviceIds(tr, dt.clusters)|
      && s.miss == |dt.clusters| - |Ids(list) * DeviceIds(tr, dt.clusters)|
      && s.required == |Ids(list) * RequiredIds(tr, dt.clusters)|
      && s.required <= |list| - s.extra
      && s.deviceType == dt.id
  {
    MatchesAreIntersection(tr, list, dt.clusters, false);
    MatchesAreIntersection(tr, list, dt.clusters, true);
    DeviceIdsSize(tr, dt.clusters);
    var ids, known, required := Ids(list), DeviceIds(tr, dt.clusters), RequiredIds(tr, dt.clusters);
    Sizes(ids, known, required);
    ScoreUnwrapped(tr, list, dt, |ids * known|, |ids * required|);
  }

  /** The `uint8_t` score is the intended one exactly when the intended one fits; small inputs make it fit. */
  lemma NumericalScoreFits(s: Score)
    ensures NumericalScore(s) == ExactScore(s) <==> 0 <= ExactScore(s) <= 255
    ensures s.required <= SKEW && s.miss + s.extra <= 235 ==> NumericalScore(s) == ExactScore(s)
  {}

  /** The byte is 20 plus the misses and the extras less the required matches, up to a multiple of 256. */
  lemma NumericalScoreIs(s: Score)
    ensures NumericalScore(s) < 256 && (NumericalScore(s) - (20 + s.miss + s.extra - s.required)) % 256 == 0
  {
    var exact := 20 + s.miss + s.extra - s.required;
    assert exact % 0x1_0000_0000 == exact - 0x1_0000_0000 * (exact / 0x1_0000_0000);
  }

  lemma SmallInputsFit(tr: Translator, list: seq<MatterCluster>, dt: DeviceType)
    requires NoDuplicates(list) && |list| + |dt.clusters| <= 235 && |RequiredIds(tr, dt.clusters)| <= SKEW
    ensures NumericalScore(ScoreOf(tr, list, dt)) == ExactScore(ScoreOf(tr, list, dt))
  {
    ScoresAreCardinalities(tr, list, dt);
    var s := ScoreOf(tr, list, dt);
    SubsetSize(Ids(list) * RequiredIds(tr, dt.clusters), RequiredIds(tr, dt.clusters));
    NumericalScoreFits(s);
  }

  // ---- The sort --------------------------------------------------------------------

  predicate Sorted(scores: seq<Score>) {
    forall i, j :: 0 <= i < j < |scores| ==> !Before(scores[j], scores[i])
  }

  lemma {:induction false} InsertMembers(s: Score, scores: seq<Score>)
    ensures multiset(Insert(s, scores)) == multiset(scores) + multiset{s}
  {
    if scores != [] && Before(scores[0], s) {
      InsertMembers(s, scores[1..]);
      assert scores == [scores[0]] + scores[1..];
    }
  }

  lemma SortedTail(scores: seq<Score>)
    requires Sorted(scores) && scores != []
    ensures Sorted(scores[1..])
    ensures forall t :: t in scores[1..] ==> !Before(t, scores[0])
  {
    assert forall i :: 0 <= i < |scores[1..]| ==> scores[1..][i] == scores[i + 1];
  }

  lemma SortedCons(head: Score, tail: seq<Score>)
    requires Sorted(tail) && forall t :: t in tail ==> !Before(t, head)
    ensures Sorted([head] + tail)
  {
    var all := [head] + tail;
    forall i, j | 0 <= i < j < |all|
      ensures !Before(all[j], all[i])
    {
      assert all[j] == tail[j - 1];
    }
  }

  lemma {:induction false} InsertSorted(s: Score, scores: seq<Score>)
    requires Sorted(scores)
    ensures Sorted(Insert(s, scores))
  {
    if scores == [] {
    } else if Before(scores[0], s) {
      SortedTail(scores);
      InsertSorted(s, scores[1..]);
      InsertMembers(s, scores[1..]);
      forall t | t in Insert(s, scores[1..])
        ensures !Before(t, scores[0])
      {
        assert t in multiset(Insert(s, scores[1..]));
      }
      SortedCons(scores[0], Insert(s, scores[1..]));
    } else {
      SortedTail(scores);
      forall t | t in scores
        ensures !Before(t, s)
      {
        assert t == scores[0] || t in scores[1..];
      }
      SortedCons(s, scores);
    }
  }

  lemma {:induction false} SortIsSort(scores: seq<Score>)
    ensures Sorted(SortScores(scores))
    ensures multiset(SortScores(scores)) == multiset(scores)
    ensures forall s :: s in SortScores(scores) <==> s in scores
    ensures |SortScores(scores)| == |scores|
  {
    if scores == [] {
    } else {
      assert scores == [scores[0]] + scores[1..];
      SortIsSort(scores[1..]);
      InsertSorted(scores[0], SortScores(scores[1..]));
      InsertMembers(scores[0], SortScores(scores[1..]));
    }
    assert |multiset(SortScores(scores))| == |multiset(scores)|;
    assert forall s :: s in SortScores(scores) <==> s in multiset(SortScores(scores));
  }

  /** Fewest misses first; among these the most required matches, and among these the fewest extras. */
  lemma SortedByKey(scores: seq<Score>, i: nat, j: nat)
    requires i < j < |SortScores(scores)|
    ensures var a, b := SortScores(scores)[i], SortScores(scores)[j];
      && a.miss <= b.miss
      && (a.miss == b.miss ==> a.required >= b.required)
      && (a.miss == b.miss && a.required == b.required ==> a.extra <= b.extra)
  {
    SortIsSort(scores);
  }

  predicate SameKey(a: Score, b: Score) {
    !Before(a, b) && !Before(b, a)
  }

  function WithKey(scores: seq<Score>, key: Score): seq<Score> {
    if scores == [] then []
    else (if SameKey(scores[0], key) then [scores[0]] else []) + WithKey(scores[1..], key)
  }

  lemma {:induction false} InsertStable(s: Score, scores: seq<Score>, key: Score)
    ensures WithKey(Insert(s, scores), key) == WithKey([s] + scores, key)
  {
    assert ([s] + scores)[1..] == scores;
    if scores != [] && Before(scores[0], s) {
      InsertStable(s, scores[1..], key);
      assert ([s] + scores[1..])[1..] == scores[1..];
    }
  }

  /** Candidates the order does not tell apart keep the order of the device-type map. */
  lemma {:induction false} SortIsStable(scores: seq<Score>, key: Score)
    ensures WithKey(SortScores(scores), key) == WithKey(scores, key)
  {
    if scores == [] {
    } else {
      SortIsStable(scores[1..], key);
      InsertStable(scores[0], SortScores(scores[1..]), key);
      assert ([scores[0]] + SortScores(scores[1..]))[1..] == SortScores(scores[1..]);
    }
  }

  // ---- The choice ------------------------------------------------------------------

  lemma {:induction false} RecordsAre(cs: seq<Score>, n: nat)
    requires n <= |cs|
    ensures forall i: nat :: i in Records(cs, n) <==> i < n && IsRecord(cs, i)
    ensures forall k, m :: 0 <= k < m < |Records(cs, n)| ==> Records(cs, n)[m] < Records(cs, n)[k]
  {
    if n == 0 {
    } else {
      RecordsAre(cs, n - 1);
      var rest := Records(cs, n - 1);
      assert forall k :: 0 <= k < |rest| ==> rest[k] in rest;
    }
  }

  lemma {:induction false} SelectionAtRecords(cs: seq<Score>, n: nat)
    requires n <= |cs|
    ensures |Selection(cs, n)| == |Records(cs, n)|
    ensures forall k :: 0 <= k < |Records(cs, n)| ==>
      Records(cs, n)[k] < n && Selection(cs, n)[k] == cs[Records(cs, n)[k]].deviceType
  {
    if n == 0 {
    } else {
      SelectionAtRecords(cs, n - 1);
      var rest, ids := Records(cs, n - 1), Selection(cs, n - 1);
      if IsRecord(cs, n - 1) {
        assert Records(cs, n) == [n - 1] + rest && Selection(cs, n) == [cs[n - 1].deviceType] + ids;
      } else {
        assert Records(cs, n) == rest && Selection(cs, n) == ids;
      }
    }
  }

  lemma {:induction false} LatestRecordIsMinimum(cs: seq<Score>, n: nat)
    requires 0 < n <= |cs|
    ensures Records(cs, n) != [] && Records(cs, n)[0] < n
    ensures forall j :: 0 <= j < n ==> NumericalScore(cs[Records(cs, n)[0]]) <= NumericalScore(cs[j])
    ensures forall j :: Records(cs, n)[0] < j < n ==> NumericalScore(cs[Records(cs, n)[0]]) < NumericalScore(cs[j])
  {
    if n > 1 {
      LatestRecordIsMinimum(cs, n - 1);
      var best := Records(cs, n - 1)[0];
      if IsRecord(cs, n - 1) {
        assert NumericalScore(cs[best]) >= NumericalScore(cs[n - 1]);
      } else {
        assert NumericalScore(cs[best]) < NumericalScore(cs[n - 1]);
      }
    }
  }

  /**
   * The list returned, for candidates in any order: the device types of exactly the records, the
   * latest first. Scores never fall from front to back, the head has the least score of all and
   * is the last candidate that has it, and the list is empty only when there is no candidate.
   */
  lemma SelectionResult(cs: seq<Score>)
    ensures var ids, records := Selection(cs, |cs|), Records(cs, |cs|);
      && |ids| == |records|
      && (ids == [] <==> cs == [])
      && (forall k :: 0 <= k < |ids| ==> records[k] < |cs| && ids[k] == cs[records[k]].deviceType)
      && (forall i: nat :: i in records <==> IsRecord(cs, i))
      && (forall k, m :: 0 <= k < m < |ids| ==> records[m] < records[k])
      && (forall k, m :: 0 <= k < m < |ids| ==> NumericalScore(cs[records[k]]) <= NumericalScore(cs[records[m]]))
      && (cs != [] ==> forall j :: 0 <= j < |cs| ==>
            NumericalScore(cs[records[0]]) <= NumericalScore(cs[j])
            && (j > records[0] ==> NumericalScore(cs[records[0]]) < NumericalScore(cs[j])))
  {
    SelectionAtRecords(cs, |cs|);
    RecordsAre(cs, |cs|);
    if cs != [] {
      LatestRecordIsMinimum(cs, |cs|);
    }
    var records := Records(cs, |cs|);
    forall k, m | 0 <= k < m < |records|
      ensures NumericalScore(cs[records[k]]) <= NumericalScore(cs[records[m]])
    {
      assert records[k] in records && IsRecord(cs, records[k]);
    }
  }

  /** Where every score fits its byte, the latest record has the least intended score. */
  lemma FittingScores(cs: seq<Score>)
    requires cs != [] && forall j :: 0 <= j < |cs| ==> 0 <= ExactScore(cs[j]) <= 255
    ensures Records(cs, |cs|) != [] && Records(cs, |cs|)[0] < |cs|
    ensures forall j :: 0 <= j < |cs| ==> ExactScore(cs[Records(cs, |cs|)[0]]) <= ExactScore(cs[j])
  {
    LatestRecordIsMinimum(cs, |cs|);
    forall j | 0 <= j < |cs|
      ensures NumericalScore(cs[j]) == ExactScore(cs[j])
    {
      NumericalScoreFits(cs[j]);
    }
  }

  // ---- Who is a candidate ----------------------------------------------------------

  lemma {:induction false} CandidatesAre(tr: Translator, list: seq<MatterCluster>, dts: seq<DeviceType>)
    ensures forall s :: s in Candidates(tr, list, dts) <==>
      exists dt :: dt in dts && Conforms(tr, list, dt.clusters) && s == ScoreOf(tr, list, dt)
  {
    if dts == [] {
    } else {
      var front, last := dts[..|dts| - 1], dts[|dts| - 1];
      assert dts == front + [last];
      CandidatesAre(tr, list, front);
      forall s
        ensures s in Candidates(tr, list, dts) <==>
          exists dt :: dt in dts && Conforms(tr, list, dt.clusters) && s == ScoreOf(tr, list, dt)
      {
        if s in Candidates(tr, list, front) {
          var dt :| dt in front && Conforms(tr, list, dt.clusters) && s == ScoreOf(tr, list, dt);
          assert dt in dts;
        } else if s in Candidates(tr, list, dts) {
          assert last in dts && s == ScoreOf(tr, list, last);
        }
      }
    }
  }

  /** The device types returned are those of conforming candidates, and there is one as soon as one type conforms. */
  lemma SelectedConform(tr: Translator, list: seq<MatterCluster>)
    ensures var cs := SortScores(Candidates(tr, list, tr.deviceTypes));
      && (forall id :: id in Selection(cs, |cs|) ==>
            exists dt :: dt in tr.deviceTypes && dt.id == id && Conforms(tr, list, dt.clusters))
      && (Selection(cs, |cs|) == [] <==> forall dt :: dt in tr.deviceTypes ==> !Conforms(tr, list, dt.clusters))
  {
    var scores := Candidates(tr, list, tr.deviceTypes);
    var cs := SortScores(scores);
    CandidatesAre(tr, list, tr.deviceTypes);
    SortIsSort(scores);
    SelectionAtRecords(cs, |cs|);
    RecordsAre(cs, |cs|);
    forall id | id in Selection(cs, |cs|)
      ensures exists dt :: dt in tr.deviceTypes && dt.id == id && Conforms(tr, list, dt.clusters)
    {
      var k :| 0 <= k < |Selection(cs, |cs|)| && Selection(cs, |cs|)[k] == id;
      var s := cs[Records(cs, |cs|)[k]];
      assert s in scores;
      var dt :| dt in tr.deviceTypes && Conforms(tr, list, dt.clusters) && s == ScoreOf(tr, list, dt);
    }
    if cs == [] {
      forall dt | dt in tr.deviceTypes
        ensures !Conforms(tr, list, dt.clusters)
      {
        assert ScoreOf(tr, list, dt) !in cs;
      }
    } else {
      LatestRecordIsMinimum(cs, |cs|);
      assert cs[0] in scores;
    }
  }

  /** The first device type returned scores no higher than any type that conforms. */
  lemma HeadIsBest(tr: Translator, list: seq<MatterCluster>, dt: DeviceType)
    requires dt in tr.deviceTypes && Conforms(tr, list, dt.clusters)
    ensures var cs := SortScores(Candidates(tr, list, tr.deviceTypes));
      && Selection(cs, |cs|) != []
      && exists best :: best in tr.deviceTypes && Conforms(tr, list, best.clusters) && best.id == Selection(cs, |cs|)[0]
           && NumericalScore(ScoreOf(tr, list, best)) <= NumericalScore(ScoreOf(tr, list, dt))
  {
    var scores := Candidates(tr, list, tr.deviceTypes);
    var cs := SortScores(scores);
    CandidatesAre(tr, list, tr.deviceTypes);
    SortIsSort(scores);
    assert ScoreOf(tr, list, dt) in cs;
    SelectionAtRecords(cs, |cs|);
    LatestRecordIsMinimum(cs, |cs|);
    var head := cs[Records(cs, |cs|)[0]];
    assert head in scores;
    var best :| best in tr.deviceTypes && Conforms(tr, list, best.clusters) && head == ScoreOf(tr, list, best);
  }

  /** Small inputs: a duplicate-free list, and device types that are not too long for it. */
  ghost predicate Small(tr: Translator, list: seq<MatterCluster>) {
    && NoDuplicates(list)
    && forall dt :: dt in tr.deviceTypes ==>
         |list| + |dt.clusters| <= 235 && |RequiredIds(tr, dt.clusters)| <= SKEW
  }

  /**
   * For small inputs the byte does not matter: whatever order the sort leaves the candidates in,
   * the first device type returned has the least score of all conforming types, counted exactly.
   */
  lemma HeadIsExactlyBest(tr: Translator, list: seq<MatterCluster>, cs: seq<Score>, dt: DeviceType)
    requires Small(tr, list) && multiset(cs) == multiset(Candidates(tr, list, tr.deviceTypes))
    requires dt in tr.deviceTypes && Conforms(tr, list, dt.clusters)
    ensures Selection(cs, |cs|) != []
    ensures exists best ::
      && best in tr.deviceTypes && Conforms(tr, list, best.clusters) && best.id == Selection(cs, |cs|)[0]
      && ExactScore(ScoreOf(tr, list, best)) <= ExactScore(ScoreOf(tr, list, dt))
  {
    var scores := Candidates(tr, list, tr.deviceTypes);
    CandidatesAre(tr, list, tr.deviceTypes);
    assert forall s :: s in cs <==> s in multiset(cs);
    assert forall s :: s in scores <==> s in multiset(scores);
    assert ScoreOf(tr, list, dt) in cs;
    forall j | 0 <= j < |cs|
      ensures 0 <= ExactScore(cs[j]) <= 255
    {
      assert cs[j] in scores;
      var d :| d in tr.deviceTypes && Conforms(tr, list, d.clusters) && cs[j] == ScoreOf(tr, list, d);
      SmallInputsFit(tr, list, d);
      NumericalScoreFits(cs[j]);
    }
    FittingScores(cs);
    SelectionAtRecords(cs, |cs|);
    var head := cs[Records(cs, |cs|)[0]];
    assert head in scores;
    var best :| best in tr.deviceTypes && Conforms(tr, list, best.clusters) && head == ScoreOf(tr, list, best);
  }

  lemma HeadScores(cs: seq<Score>)
    requires cs != []
    requires forall j :: 0 <= j < |cs| ==> 0 <= ExactScore(cs[j]) <= 255
    ensures Records(cs, |cs|) != [] && Records(cs, |cs|)[0] < |cs| && Selection(cs, |cs|) != []
    ensures var r := Records(cs, |cs|)[0];
      && Selection(cs, |cs|)[0] == cs[r].deviceType
      && forall j :: 0 <= j < |cs| ==>
           ExactScore(cs[r]) <= ExactScore(cs[j]) && (j > r ==> ExactScore(cs[r]) < ExactScore(cs[j]))
  {
    forall j | 0 <= j < |cs|
      ensures NumericalScore(cs[j]) == ExactScore(cs[j])
    {
      NumericalScoreFits(cs[j]);
    }
    SelectionResult(cs);
  }

  lemma TypeOfScore(tr: Translator, list: seq<MatterCluster>, cs: seq<Score>, j: nat) returns (dt: DeviceType)
    requires Small(tr, list) && cs == SortScores(Candidates(tr, list, tr.deviceTypes)) && j < |cs|
    ensures dt in tr.deviceTypes && Conforms(tr, list, dt.clusters) && cs[j] == ScoreOf(tr, list, dt)
    ensures 0 <= ExactScore(cs[j]) <= 255
  {
    CandidatesAre(tr, list, tr.deviceTypes);
    SortIsSort(Candidates(tr, list, tr.deviceTypes));
    assert cs[j] in Candidates(tr, list, tr.deviceTypes);
    dt :| dt in tr.deviceTypes && Conforms(tr, list, dt.clusters) && cs[j] == ScoreOf(tr, list, dt);
    SmallInputsFit(tr, list, dt);
    NumericalScoreFits(cs[j]);
  }

  lemma ScoreOfType(tr: Translator, list: seq<MatterCluster>, cs: seq<Score>, dt: DeviceType) returns (j: nat)
    requires cs == SortScores(Candidates(tr, list, tr.deviceTypes))
    requires dt in tr.deviceTypes && Conforms(tr, list, dt.clusters)
    ensures j < |cs| && cs[j] == ScoreOf(tr, list, dt)
  {
    CandidatesAre(tr, list, tr.deviceTypes);
    SortIsSort(Candidates(tr, list, tr.deviceTypes));
    assert ScoreOf(tr, list, dt) in cs;
    j :| 0 <= j < |cs| && cs[j] == ScoreOf(tr, list, dt);
  }

  /** Candidate r is last among those with the least score. */
  ghost predicate IsHead(cs: seq<Score>, r: nat) {
    r < |cs| && forall j :: 0 <= j < |cs| ==>
      ExactScore(cs[r]) <= ExactScore(cs[j]) && (j > r ==> ExactScore(cs[r]) < ExactScore(cs[j]))
  }

  /** The last of the sorted candidates with the least score, by the type it stands for. */
  lemma HeadBeats(tr: Translator, list: seq<MatterCluster>, cs: seq<Score>, r: nat, dt: DeviceType)
    requires Small(tr, list) && cs == SortScores(Candidates(tr, list, tr.deviceTypes))
    requires IsHead(cs, r)
    requires dt in tr.deviceTypes && Conforms(tr, list, dt.clusters)
    ensures ExactScore(cs[r]) <= ExactScore(ScoreOf(tr, list, dt))
    ensures ExactScore(cs[r]) == ExactScore(ScoreOf(tr, list, dt)) ==> cs[r].miss >= ScoreOf(tr, list, dt).miss
  {
    var j := ScoreOfType(tr, list, cs, dt);
    if j < r {
      SortedByKey(Candidates(tr, list, tr.deviceTypes), j, r);
    }
  }

  lemma HeadOfSelection(tr: Translator, list: seq<MatterCluster>, cs: seq<Score>, some: DeviceType)
    returns (best: DeviceType, r: nat)
    requires Small(tr, list) && cs == SortScores(Candidates(tr, list, tr.deviceTypes))
    requires some in tr.deviceTypes && Conforms(tr, list, some.clusters)
    ensures IsHead(cs, r) && cs[r] == ScoreOf(tr, list, best)
    ensures best in tr.deviceTypes && Conforms(tr, list, best.clusters)
    ensures Selection(cs, |cs|) != [] && Selection(cs, |cs|)[0] == best.id
  {
    var _ := ScoreOfType(tr, list, cs, some);
    forall j | 0 <= j < |cs|
      ensures 0 <= ExactScore(cs[j]) <= 255
    {
      var _ := TypeOfScore(tr, list, cs, j);
    }
    HeadScores(cs);
    r := Records(cs, |cs|)[0];
    best := TypeOfScore(tr, list, cs, r);
  }

  /** The cost of one type is less than that of another, or the same and it misses no fewer clusters. */
  ghost predicate CostsNoMore(tr: Translator, list: seq<MatterCluster>, best: DeviceType, dt: DeviceType) {
    var missed := |dt.clusters| - |Ids(list) * DeviceIds(tr, dt.clusters)|;
    var bestMissed := |best.clusters| - |Ids(list) * DeviceIds(tr, best.clusters)|;
    var cost := missed + |Ids(list) - DeviceIds(tr, dt.clusters)| - |Ids(list) * RequiredIds(tr, dt.clusters)|;
    var bestCost :=
      bestMissed + |Ids(list) - DeviceIds(tr, best.clusters)| - |Ids(list) * RequiredIds(tr, best.clusters)|;
    bestCost < cost || (bestCost == cost && bestMissed >= missed)
  }

  lemma HeadCostsNoMore(
    tr: Translator, list: seq<MatterCluster>, cs: seq<Score>, r: nat, best: DeviceType, dt: DeviceType)
    requires Small(tr, list) && cs == SortScores(Candidates(tr, list, tr.deviceTypes)) && IsHead(cs, r)
    requires best in tr.deviceTypes && Conforms(tr, list, best.clusters) && cs[r] == ScoreOf(tr, list, best)
    requires dt in tr.deviceTypes && Conforms(tr, list, dt.clusters)
    ensures CostsNoMore(tr, list, best, dt)
  {
    HeadBeats(tr, list, cs, r, dt);
    ScoresAreCardinalities(tr, list, best);
    ScoresAreCardinalities(tr, list, dt);
  }

  /** No conforming type costs less than this one. */
  ghost predicate IsCheapest(tr: Translator, list: seq<MatterCluster>, best: DeviceType) {
    && best in tr.deviceTypes && Conforms(tr, list, best.clusters)
    && forall dt :: dt in tr.deviceTypes && Conforms(tr, list, dt.clusters) ==> CostsNoMore(tr, list, best, dt)
  }

  /**
   * The first type returned for a small list is a conforming type of least cost: its clusters
   * that are not there and those there that it does not know, less the required ones it matches.
   * Of several it is one that misses most.
   */
  lemma CheapestTypeFirst(tr: Translator, list: seq<MatterCluster>, some: DeviceType)
    requires Small(tr, list) && some in tr.deviceTypes && Conforms(tr, list, some.clusters)
    ensures var cs := SortScores(Candidates(tr, list, tr.deviceTypes));
      Selection(cs, |cs|) != [] && exists best :: IsCheapest(tr, list, best) && best.id == Selection(cs, |cs|)[0]
  {
    var cs := SortScores(Candidates(tr, list, tr.deviceTypes));
    var best, r := HeadOfSelection(tr, list, cs, some);
    forall dt | dt in tr.deviceTypes && Conforms(tr, list, dt.clusters)
      ensures CostsNoMore(tr, list, best, dt)
    {
      HeadCostsNoMore(tr, list, cs, r, best, dt);
    }
    assert IsCheapest(tr, list, best);
  }

  // ---- Large inputs ----------------------------------------------------------------

  /** A generated table with n clusters, each named by its numeral. */
  function Names(n: nat): map<string, nat> {
    if n == 0 then map[] else Names(n - 1)[Dec(n - 1) := n - 1]
  }

  function AllMandatory(n: nat): (dcs: seq<DeviceCluster>)
    ensures |dcs| == n && forall i :: 0 <= i < n ==> dcs[i] == DeviceCluster(Dec(i), true, [], [])
  {
    if n == 0 then [] else AllMandatory(n - 1) + [DeviceCluster(Dec(n - 1), true, [], [])]
  }

  function AllPresent(n: nat): (list: seq<MatterCluster>)
    ensures |list| == n && forall i :: 0 <= i < n ==> list[i] == MatterCluster(i, [], [])
  {
    if n == 0 then [] else AllPresent(n - 1) + [MatterCluster(n - 1, [], [])]
  }

  /** Device type 1 has exactly the clusters present, all mandatory; device type 2 has none. */
  function LargeTable(n: nat): Translator {
    Translator(map[], map[], map[], Names(n), map[], map[], map[],
               [DeviceType(1, AllMandatory(n)), DeviceType(2, [])], false)
  }

  lemma {:induction false} NamesSpec(n: nat, i: nat)
    requires i < n
    ensures Find(Names(n), Dec(i)) == Some(i)
  {
    if i == n - 1 {
    } else {
      DecInjective(i, n - 1);
      NamesSpec(n - 1, i);
    }
  }

  lemma LargeIds(n: nat)
    ensures Ids(AllPresent(n)) == RequiredIds(LargeTable(n), AllMandatory(n)) == DeviceIds(LargeTable(n), AllMandatory(n))
  {
    var tr, list, dcs := LargeTable(n), AllPresent(n), AllMandatory(n);
    forall i: nat | i < n
      ensures ClusterId(tr, dcs[i]) == Some(i) && list[i].id == i
    {
      NamesSpec(n, i);
    }
    forall id
      ensures id in Ids(list) <==> id in DeviceIds(tr, dcs)
    {
      if id in Ids(list) {
        assert ClusterId(tr, dcs[id]) == Some(id);
      }
      if id in DeviceIds(tr, dcs) {
        var i :| 0 <= i < |dcs| && ClusterId(tr, dcs[i]) == Some(id);
        assert list[id].id == id;
      }
    }
    forall id | id in DeviceIds(tr, dcs)
      ensures id in RequiredIds(tr, dcs)
    {
      FirstMatchSpec(tr, id, dcs);
    }
  }

  lemma LargeMatches(n: nat, onlyRequired: bool)
    ensures NoDuplicates(AllPresent(n))
    ensures Matches(LargeTable(n), AllPresent(n), AllMandatory(n), onlyRequired) == n
    ensures Matches(LargeTable(n), AllPresent(n), [], onlyRequired) == 0
  {
    var tr, list, ids := LargeTable(n), AllPresent(n), Ids(AllPresent(n));
    LargeIds(n);
    assert ids * CountedIds(tr, AllMandatory(n), onlyRequired) == ids;
    assert ids * CountedIds(tr, [], onlyRequired) == {};
    MatchesAreIntersection(tr, list, AllMandatory(n), onlyRequired);
    MatchesAreIntersection(tr, list, [], onlyRequired);
  }

  lemma LargeScores(n: nat)
    requires n <= 255
    ensures ScoreOf(LargeTable(n), AllPresent(n), DeviceType(1, AllMandatory(n))) == Score(0, 0, n, 1)
    ensures ScoreOf(LargeTable(n), AllPresent(n), DeviceType(2, [])) == Score(n, 0, 0, 2)
  {
    LargeMatches(n, false);
    LargeMatches(n, true);
    ScoreUnwrapped(LargeTable(n), AllPresent(n), DeviceType(1, AllMandatory(n)), n, n);
    ScoreUnwrapped(LargeTable(n), AllPresent(n), DeviceType(2, []), 0, 0);
  }

  lemma LargeCandidates(n: nat)
    requires n <= 255
    ensures Candidates(LargeTable(n), AllPresent(n), LargeTable(n).deviceTypes) == [Score(0, 0, n, 1), Score(n, 0, 0, 2)]
  {
    var tr, list := LargeTable(n), AllPresent(n);
    var dts := tr.deviceTypes;
    LargeScores(n);
    forall dc | dc in AllMandatory(n)
      ensures Satisfied(tr, list, dc)
    {
      var i :| 0 <= i < n && AllMandatory(n)[i] == dc;
      NamesSpec(n, i);
    }
    assert dts[..2] == dts && dts[..1] == [dts[0]] && dts[..1][..0] == [];
    assert Candidates(tr, list, dts[..1]) == [Score(0, 0, n, 1)];
  }

  lemma SortPair(a: Score, b: Score)
    requires Before(a, b)
    ensures SortScores([a, b]) == [a, b]
  {
    assert [a, b][1..] == [b] && [b][1..] == [];
    assert SortScores([b]) == [b];
  }

  /** One record after another. */
  lemma SelectPair(a: Score, b: Score)
    ensures Selection([a, b], 2) ==
      if NumericalScore(a) >= NumericalScore(b) then [b.deviceType, a.deviceType] else [a.deviceType]
  {
    var cs := [a, b];
    SelectionStart(cs);
    SelectionStep(cs, 0, 1);
  }

  lemma LargeNumerals(n: nat)
    requires 0 < n <= 255
    ensures NumericalScore(Score(0, 0, n, 1)) >= NumericalScore(Score(n, 0, 0, 2)) <==> SKEW < n <= 128 || n >= 236
  {
    var perfect, empty := SKEW - n, SKEW + n;
    assert (perfect % 0x1_0000_0000) % 0x100 == if n <= SKEW then perfect else perfect + 0x100;
    assert (empty % 0x1_0000_0000) % 0x100 == if n < 236 then empty else empty - 0x100;
  }

  /**
   * What the byte costs a larger table: the type whose n clusters are all mandatory and all
   * present always has the better score, yet comes behind a type without clusters for exactly
   * 21 to 128 and 236 to 255 of them.
   */
  lemma WrappedScoreLoses(n: nat)
    requires 0 < n <= 255
    ensures
      var cs := SortScores(Candidates(LargeTable(n), AllPresent(n), LargeTable(n).deviceTypes));
      && NoDuplicates(AllPresent(n))
      && Selection(cs, |cs|) == (if SKEW < n <= 128 || n >= 236 then [2, 1] else [1])
      && ExactScore(ScoreOf(LargeTable(n), AllPresent(n), DeviceType(1, AllMandatory(n))))
         < ExactScore(ScoreOf(LargeTable(n), AllPresent(n), DeviceType(2, [])))
  {
    LargeScores(n);
    LargeMatches(n, false);
    LargeCandidates(n);
    LargeNumerals(n);
    SortPair(Score(0, 0, n, 1), Score(n, 0, 0, 2));
    SelectPair(Score(0, 0, n, 1), Score(n, 0, 0, 2));
  }

  // ---- Strict mapping --------------------------------------------------------------

  /** A cluster of the list that is all a device type asks of one of its mandatory clusters. */
  ghost predicate Provides(tr: Translator, list: seq<MatterCluster>, dc: DeviceCluster) {
    exists c :: c in list && Some(c.id) == ClusterId(tr, dc) && Fulfils(tr, c, dc)
  }

  lemma UniquePosition(list: seq<MatterCluster>, c: MatterCluster)
    requires NoDuplicates(list) && c in list
    ensures Position(list, c.id) < |list| && list[Position(list, c.id)] == c
  {
    PositionIsFirst(list, c.id);
  }

  /** Strict conformance in terms of the clusters present, wherever they stand. */
  lemma StrictMeansProvided(tr: Translator, list: seq<MatterCluster>, dcs: seq<DeviceCluster>)
    requires tr.specCompliant && NoDuplicates(list)
    ensures Conforms(tr, list, dcs) <==> forall dc :: dc in dcs && dc.mandatory ==> Provides(tr, list, dc)
  {
    forall dc | dc in dcs && dc.mandatory
      ensures Satisfied(tr, list, dc) <==> Provides(tr, list, dc)
    {
      if Provides(tr, list, dc) {
        var c :| c in list && Some(c.id) == ClusterId(tr, dc) && Fulfils(tr, c, dc);
        UniquePosition(list, c);
      }
      if Satisfied(tr, list, dc) {
        var id := ClusterId(tr, dc).value;
        PositionIsFirst(list, id);
        var c := list[Position(list, id)];
        assert c in list && Some(c.id) == ClusterId(tr, dc) && Fulfils(tr, c, dc);
      }
    }
  }

  /** All a strict mapping asks, in terms of the tables: attributes by name, commands among the first eight words. */
  lemma StrictInFull(tr: Translator, c: MatterCluster, dc: DeviceCluster)
    ensures Fulfils(tr, c, dc) <==>
      && (forall a :: a in dc.attributes || (dc.name in tr.additional && a in tr.additional[dc.name]) ==>
            dc.name in tr.matterAttributes && a in tr.matterAttributes[dc.name]
            && tr.matterAttributes[dc.name][a] in c.attributes)
      && (forall a :: a in dc.commands ==>
            dc.name in tr.matterCommands && a in tr.matterCommands[dc.name]
            && exists i :: 0 <= i < 8 && i < |c.words| && c.words[i] == tr.matterCommands[dc.name][a]
                 && 0xFF !in c.words[..i + 1])
  {
    forall id: nat
      ensures ScanFinds(c.words, id) <==>
        exists i :: 0 <= i < 8 && i < |c.words| && c.words[i] == id && 0xFF !in c.words[..i + 1]
    {
      if ScanFinds(c.words, id) {
        var i :| 0 <= i < COMMAND_SCAN && Reached(c.words, i) && c.words[i] == id;
        assert 0xFF !in c.words[..i + 1];
      }
      if i: int :| 0 <= i < 8 && i < |c.words| && c.words[i] == id && 0xFF !in c.words[..i + 1] {
        forall j | 0 <= j <= i
          ensures c.words[j] != 0xFF
        {
          assert c.words[j] == c.words[..i + 1][j];
        }
        assert Reached(c.words, i);
      }
    }
  }

  /** Without strict mapping, only the names of the mandatory clusters have to be known; none has to be there. */
  lemma LooseMeansKnown(tr: Translator, list: seq<MatterCluster>, dcs: seq<DeviceCluster>)
    requires !tr.specCompliant
    ensures Conforms(tr, list, dcs) <==> forall dc :: dc in dcs && dc.mandatory ==> dc.name in tr.matterClusters
  {}

  /** Strict mapping only ever narrows the choice. */
  lemma StrictNarrows(tr: Translator, list: seq<MatterCluster>, dcs: seq<DeviceCluster>)
    requires Conforms(tr.(specCompliant := true), list, dcs)
    ensures Conforms(tr.(specCompliant := false), list, dcs)
  {
    forall dc | dc in dcs && dc.mandatory
      ensures Satisfied(tr.(specCompliant := false), list, dc)
    {
      assert Satisfied(tr.(specCompliant := true), list, dc);
    }
  }

  function MandatoryIds(tr: Translator, dcs: seq<DeviceCluster>): set<nat> {
    set i | 0 <= i < |dcs| && dcs[i].mandatory && ClusterId(tr, dcs[i]).Some? :: ClusterId(tr, dcs[i]).value
  }

  ghost predicate DistinctClusters(tr: Translator, dcs: seq<DeviceCluster>) {
    forall i, j :: 0 <= i < j < |dcs| ==> ClusterId(tr, dcs[i]) != ClusterId(tr, dcs[j]) || ClusterId(tr, dcs[i]).None?
  }

  lemma RequiredAreMandatory(tr: Translator, dcs: seq<DeviceCluster>)
    requires DistinctClusters(tr, dcs)
    ensures RequiredIds(tr, dcs) == MandatoryIds(tr, dcs)
  {
    forall id
      ensures id in RequiredIds(tr, dcs) <==> id in MandatoryIds(tr, dcs)
    {
      FirstMatchSpec(tr, id, dcs);
      if id in MandatoryIds(tr, dcs) {
        var i :| 0 <= i < |dcs| && dcs[i].mandatory && ClusterId(tr, dcs[i]) == Some(id);
        var first := FirstMatch(tr, id, dcs).value;
        var j :| 0 <= j < |dcs| && dcs[j] == first;
      }
      if id in RequiredIds(tr, dcs) {
        var first := FirstMatch(tr, id, dcs).value;
        var j :| 0 <= j < |dcs| && dcs[j] == first;
      }
    }
  }

  /** In strict mapping a candidate's required matches are all of its mandatory clusters. */
  lemma StrictMatchesAllMandatory(tr: Translator, list: seq<MatterCluster>, dt: DeviceType)
    requires tr.specCompliant && NoDuplicates(list) && |list| <= 255 && |dt.clusters| < 0x1_0000_0000
    requires DistinctClusters(tr, dt.clusters) && Conforms(tr, list, dt.clusters)
    ensures ScoreOf(tr, list, dt).required == |MandatoryIds(tr, dt.clusters)|
    ensures MandatoryIds(tr, dt.clusters) <= Ids(list)
  {
    ScoresAreCardinalities(tr, list, dt);
    RequiredAreMandatory(tr, dt.clusters);
    StrictMeansProvided(tr, list, dt.clusters);
    forall id | id in MandatoryIds(tr, dt.clusters)
      ensures id in Ids(list)
    {
      var i :| 0 <= i < |dt.clusters| && dt.clusters[i].mandatory && ClusterId(tr, dt.clusters[i]) == Some(id);
      assert Provides(tr, list, dt.clusters[i]);
      var c :| c in list && c.id == id;
      var j :| 0 <= j < |list| && list[j] == c;
    }
    assert Ids(list) * MandatoryIds(tr, dt.clusters) == MandatoryIds(tr, dt.clusters);
  }

  // ---- The order of the input ------------------------------------------------------

  lemma SameMembers(list: seq<MatterCluster>, other: seq<MatterCluster>)
    requires multiset(list) == multiset(other)
    ensures forall c :: c in list <==> c in other
    ensures |list| == |other|
    ensures Ids(list) == Ids(other)
  {
    assert |multiset(list)| == |multiset(other)|;
    forall c
      ensures c in list <==> c in other
    {
      assert c in multiset(list) <==> c in multiset(other);
    }
    forall id
      ensures id in Ids(list) <==> id in Ids(other)
    {
      if i :| 0 <= i < |list| && list[i].id == id {
        assert list[i] in other;
        var j :| 0 <= j < |other| && other[j] == list[i];
      }
      if i :| 0 <= i < |other| && other[i].id == id {
        assert other[i] in list;
        var j :| 0 <= j < |list| && list[j] == other[i];
      }
    }
  }

  lemma ConformsIgnoresOrder(tr: Translator, list: seq<MatterCluster>, other: seq<MatterCluster>, dcs: seq<DeviceCluster>)
    requires multiset(list) == multiset(other) && NoDuplicates(list) && NoDuplicates(other)
    ensures Conforms(tr, list, dcs) <==> Conforms(tr, other, dcs)
  {
    SameMembers(list, other);
    if tr.specCompliant {
      StrictMeansProvided(tr, list, dcs);
      StrictMeansProvided(tr, other, dcs);
      forall dc | dc in dcs
        ensures Provides(tr, list, dc) <==> Provides(tr, other, dc)
      {}
    } else {
      forall dc | dc in dcs
        ensures Satisfied(tr, list, dc) <==> Satisfied(tr, other, dc)
      {}
    }
  }

  lemma MatchesIgnoreOrder(
    tr: Translator, list: seq<MatterCluster>, other: seq<MatterCluster>, dcs: seq<DeviceCluster>, onlyRequired: bool)
    requires multiset(list) == multiset(other) && NoDuplicates(list) && NoDuplicates(other)
    ensures Matches(tr, list, dcs, onlyRequired) == Matches(tr, other, dcs, onlyRequired) && |list| == |other|
  {
    SameMembers(list, other);
    MatchesAreIntersection(tr, list, dcs, onlyRequired);
    MatchesAreIntersection(tr, other, dcs, onlyRequired);
  }

  lemma ScoreIgnoresOrder(tr: Translator, list: seq<MatterCluster>, other: seq<MatterCluster>, dt: DeviceType)
    requires multiset(list) == multiset(other) && NoDuplicates(list) && NoDuplicates(other)
    ensures ScoreOf(tr, list, dt) == ScoreOf(tr, other, dt)
  {
    MatchesIgnoreOrder(tr, list, other, dt.clusters, false);
    MatchesIgnoreOrder(tr, list, other, dt.clusters, true);
  }

  lemma {:induction false} CandidatesIgnoreOrder(
    tr: Translator, list: seq<MatterCluster>, other: seq<MatterCluster>, dts: seq<DeviceType>)
    requires multiset(list) == multiset(other) && NoDuplicates(list) && NoDuplicates(other)
    ensures Candidates(tr, list, dts) == Candidates(tr, other, dts)
  {
    if dts == [] {
    } else {
      CandidatesIgnoreOrder(tr, list, other, dts[..|dts| - 1]);
      ConformsIgnoresOrder(tr, list, other, dts[|dts| - 1].clusters);
      ScoreIgnoresOrder(tr, list, other, dts[|dts| - 1]);
    }
  }

  lemma DuplicatesIgnoreOrder(list: seq<MatterCluster>, other: seq<MatterCluster>)
    requires multiset(list) == multiset(other) && NoDuplicates(list)
    ensures NoDuplicates(other)
  {
    SameMembers(list, other);
    forall i, j | 0 <= i < j < |other|
      ensures other[i].id != other[j].id
    {
      if other[i].id == other[j].id {
        assert other[i] in other && other[j] in other;
        var k :| 0 <= k < |list| && list[k] == other[i];
        var m :| 0 <= m < |list| && list[m] == other[j];
        assert k == m;
        TwiceInMultiset(other, i, j);
        OnceInMultiset(list, k);
      }
    }
  }

  lemma TwiceInMultiset(list: seq<MatterCluster>, i: nat, j: nat)
    requires i < j < |list| && list[i] == list[j]
    ensures multiset(list)[list[i]] >= 2
  {
    assert list == list[..j] + [list[j]] + list[j + 1..];
    assert list[..j][i] == list[j];
    assert list[i] in multiset(list[..j]);
    assert multiset(list) == multiset(list[..j]) + multiset{list[j]} + multiset(list[j + 1..]);
  }

  lemma OnceInMultiset(list: seq<MatterCluster>, k: nat)
    requires k < |list| && NoDuplicates(list)
    ensures multiset(list)[list[k]] == 1
  {
    assert list == list[..k] + [list[k]] + list[k + 1..];
    assert multiset(list) == multiset(list[..k]) + multiset{list[k]} + multiset(list[k + 1..]);
    assert list[k] !in list[..k] && list[k] !in list[k + 1..];
  }

  /** The clusters come out of an unordered map: no order of theirs changes the choice, in either mode. */
  lemma ChoiceIgnoresOrder(tr: Translator, list: seq<MatterCluster>, other: seq<MatterCluster>)
    requires multiset(list) == multiset(other) && NoDuplicates(list)
    ensures Candidates(tr, list, tr.deviceTypes) == Candidates(tr, other, tr.deviceTypes)
    ensures
      var cs := SortScores(Candidates(tr, list, tr.deviceTypes));
      var ds := SortScores(Candidates(tr, other, tr.deviceTypes));
      Selection(cs, |cs|) == Selection(ds, |ds|)
  {
    DuplicatesIgnoreOrder(list, other);
    CandidatesIgnoreOrder(tr, list, other, tr.deviceTypes);
  }
}
