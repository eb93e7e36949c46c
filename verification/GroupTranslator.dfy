/** Matter groups to Unify groups: the wrap-around allocator, the persisted mapping, and the group commands. */
module GroupTranslator {
  import opened Text
  import opened DataStorage
  import opened Topics

  const LAST_GROUP: nat := 0xFFFF

  datatype Groups = Groups(last: nat, inUse: set<nat>, store: Store)

  /** The allocator's next position, and whether it may be used. */
  datatype Scanned = Scanned(last: nat, found: bool)

  /** How far the scan can still go: it stops when it comes to 65535, which it can only pass by starting there. */
  function ScanLeft(last: nat): nat
    requires last <= LAST_GROUP
  {
    if last == LAST_GROUP then 0x1_0000 else LAST_GROUP - last
  }

  function Scan(inUse: set<nat>, last: nat): Scanned
    requires last <= LAST_GROUP
    decreases ScanLeft(last)
  {
    if last !in inUse then Scanned(last, true)
    else
      var next := (last + 1) % 0x1_0000;
      if next == LAST_GROUP then Scanned(next, false) else Scan(inUse, next)
  }

  /** Every id from one up to another, without the latter, is in use. */
  ghost predicate AllocatedFrom(inUse: set<nat>, from: nat, to: nat) {
    forall id :: from <= id < to ==> id in inUse
  }

  /**
   * The id found is not in use and every id passed over is, through the wrap from 65535 to 0;
   * failure means that every id from the start, or from 0 after a wrap, up to 65534 is in use.
   */
  lemma {:induction false} ScanSpec(inUse: set<nat>, start: nat)
    requires start <= LAST_GROUP
    ensures var r := Scan(inUse, start);
      && r.last <= LAST_GROUP
      && (r.found <==> r.last !in inUse && (r.last != LAST_GROUP || start == LAST_GROUP))
      && (if start < LAST_GROUP then start <= r.last && AllocatedFrom(inUse, start, r.last)
          else (r.last == LAST_GROUP && r.found) || (LAST_GROUP in inUse && AllocatedFrom(inUse, 0, r.last)))
      && (!r.found ==> r.last == LAST_GROUP)
    decreases ScanLeft(start)
  {
    if start in inUse {
      var next := (start + 1) % 0x1_0000;
      if next != LAST_GROUP {
        ScanSpec(inUse, next);
      }
    }
  }

  /** An id that is not in use, and everything on the scan's way to it is. */
  ghost predicate NextInLine(inUse: set<nat>, last: nat, id: nat) {
    && id !in inUse
    && if last < LAST_GROUP then last <= id < LAST_GROUP && AllocatedFrom(inUse, last, id)
       else id == LAST_GROUP || (id < LAST_GROUP && LAST_GROUP in inUse && AllocatedFrom(inUse, 0, id))
  }

  lemma ScanTakesNextInLine(inUse: set<nat>, last: nat, id: nat)
    requires last <= LAST_GROUP
    ensures Scan(inUse, last) == Scanned(id, true) <==> NextInLine(inUse, last, id)
  {
    ScanSpec(inUse, last);
  }

  function UnifyGroup(s: Groups, g: MatterGroup): Option<nat> {
    Lookup(s.store, GroupKey(g))
  }

  datatype Added = Added(groups: Groups, ok: bool)

  /** Picks an id and persists the mapping; marking the id as in use is left to the report that comes back. */
  function Add(s: Groups, g: MatterGroup, putOk: bool): Added
    requires s.last <= LAST_GROUP
  {
    var r := Scan(s.inUse, s.last);
    if r.found && putOk then Added(s.(last := r.last, store := s.store[GroupKey(g) := r.last]), true)
    else Added(s.(last := r.last), false)
  }

  function Remove(s: Groups, g: MatterGroup): Groups {
    s.(store := s.store - {GroupKey(g)})
  }

  function RemoveAll(s: Groups, fabric: nat, listed: seq<nat>): Groups {
    if listed == [] then s
    else Remove(RemoveAll(s, fabric, listed[..|listed| - 1]), MatterGroup(fabric, listed[|listed| - 1]))
  }

  class GroupTranslator {
    const storage: MatterDataStorage
    var last: nat
    var inUse: set<nat>

    constructor (storage: MatterDataStorage)
      ensures this.storage == storage && Valid() && Abstract() == Groups(1, {}, storage.kvs)
    {
      this.storage := storage;
      last := 1;
      inUse := {};
    }

    ghost predicate Valid()
      reads this
    {
      last <= LAST_GROUP
    }

    ghost function Abstract(): Groups
      reads this, storage
    {
      Groups(last, inUse, storage.kvs)
    }

    method GetUnifyGroup(g: MatterGroup) returns (unifyGroup: Option<nat>)
      ensures unifyGroup == UnifyGroup(Abstract(), g)
    {
      unifyGroup := storage.GetGroup(g);
    }

    method AddMatterGroup(g: MatterGroup, putOk: bool) returns (ok: bool)
      requires Valid()
      modifies this, storage
      ensures Valid()
      ensures Added(Abstract(), ok) == Add(old(Abstract()), g, putOk)
    {
      ScanSpec(inUse, last);
      while last in inUse
        invariant Valid() && inUse == old(inUse) && storage.kvs == old(storage.kvs)
        invariant Scan(inUse, last) == Scan(inUse, old(last))
        decreases ScanLeft(last)
      {
        last := (last + 1) % 0x1_0000;
        if last == LAST_GROUP {
          return false;
        }
      }
      ok := storage.PersistGroup(g, Some(last), putOk);
    }

    method RemoveMatterGroup(g: MatterGroup)
      modifies storage
      ensures Abstract() == Remove(old(Abstract()), g)
    {
      var unifyGroup := GetUnifyGroup(g);
      if unifyGroup.Some? {
        storage.RemoveGroup(g);
      } else {
        assert storage.kvs - {GroupKey(g)} == storage.kvs;
      }
    }

    method RegisterUnifyGroup(id: nat)
      modifies this`inUse
      ensures Abstract() == old(Abstract()).(inUse := old(inUse) + {id})
    {
      inUse := inUse + {id};
    }

    /** The group id of a by-group topic is kept in a `uint16_t`; a numeral `std::stoi` refuses throws. */
    method OnMqttMessage(topic: string) returns (thrown: bool)
      modifies this`inUse
      ensures thrown <==> Search(topic, NODE_LIST).Some? && !ParseInt(Search(topic, NODE_LIST).value[0]).Number?
      ensures Abstract() == old(Abstract()).(inUse := old(inUse) + Reported(topic))
      ensures Valid() ==> Abstract() == Do(old(Abstract()), Report(topic))
    {
      var groups := Search(topic, NODE_LIST);
      if groups.None? {
        return false;
      }
      var id := ParseInt(groups.value[0]);
      if !id.Number? {
        return true;
      }
      RegisterUnifyGroup(id.value % 0x1_0000);
      return false;
    }
  }

  function Reported(topic: string): set<nat> {
    match Search(topic, NODE_LIST)
    case None => {}
    case Some(groups) => NumeralOf(groups[0])
  }

  function NumeralOf(numeral: string): set<nat> {
    match ParseInt(numeral)
    case Number(id) => {id % 0x1_0000}
    case _ => {}
  }

  lemma NumeralNames(text: string, id: nat)
    requires id <= LAST_GROUP && ParseInt(text) == Number(id)
    ensures NumeralOf(text) == {id}
  {}

  lemma NumeralOfDec(id: nat)
    requires id <= LAST_GROUP
    ensures NumeralOf(Dec(id)) == {id}
  {
    ParseIntOfDec(id);
    NumeralNames(Dec(id), id);
  }

  // ---- The commands ----------------------------------------------------------------

  /**
   * A decoded request, with what the group data provider answers: whether the endpoint is in the
   * group, whether it knows the group, which groups it lists; `putOk` is the store's answer.
   */
  datatype GroupRequest =
    | AddGroup(group: MatterGroup, name: string, hasEndpoint: bool, known: bool, putOk: bool)
    | RemoveGroup(removed: MatterGroup)
    | RemoveAllGroups(fabric: nat, listed: seq<nat>)
    | AddGroupIfIdentifying(
        group: MatterGroup, name: string, hasEndpoint: bool, known: bool, putOk: bool, identifyTime: Option<nat>)
    | Undecodable

  datatype GroupCommand =
    | AddGroupCommand(name: string, unifyGroup: nat)
    | AddGroupIfIdentifyingCommand(name: string, unifyGroup: nat)
    | RemoveGroupCommand(unifyGroup: nat)
    | RemoveAllGroupsCommand

  datatype Invoked = Invoked(groups: Groups, sent: Option<GroupCommand>)

  /** The requests that go to the allocator. */
  predicate Allocates(r: GroupRequest) {
    (r.AddGroup? || (r.AddGroupIfIdentifying? && r.identifyTime.Some? && r.identifyTime.value != 0))
    && !r.hasEndpoint && !r.known
  }

  function AddedThenSent(s: Groups, r: GroupRequest): Invoked
    requires s.last <= LAST_GROUP && (r.AddGroup? || r.AddGroupIfIdentifying?)
  {
    if r.hasEndpoint then Invoked(s, None)
    else
      var added := if r.known then Added(s, true) else Add(s, r.group, r.putOk);
      if !added.ok then Invoked(added.groups, None)
      else
        match UnifyGroup(added.groups, r.group)
        case None => Invoked(added.groups, None)
        case Some(id) =>
          var command :=
            if r.AddGroup? then AddGroupCommand(r.name, id) else AddGroupIfIdentifyingCommand(r.name, id);
          Invoked(added.groups, Some(command))
  }

  function Invoke(s: Groups, r: GroupRequest): Invoked
    requires s.last <= LAST_GROUP
  {
    match r
    case AddGroup(_, _, _, _, _) => AddedThenSent(s, r)
    case RemoveGroup(g) =>
      Invoked(Remove(s, g), match UnifyGroup(s, g) { case Some(id) => Some(RemoveGroupCommand(id)) case None => None })
    case RemoveAllGroups(fabric, listed) => Invoked(RemoveAll(s, fabric, listed), Some(RemoveAllGroupsCommand))
    case AddGroupIfIdentifying(_, _, _, _, _, identifyTime) =>
      if identifyTime.None? || identifyTime.value == 0 then Invoked(s, None) else AddedThenSent(s, r)
    case Undecodable => Invoked(s, None)
  }

  class GroupClusterCommandHandler {
    const translator: GroupTranslator

    constructor (translator: GroupTranslator)
      ensures this.translator == translator
    {
      this.translator := translator;
    }

    method RemoveAllGroups(fabric: nat, listed: seq<nat>)
      modifies translator.storage
      ensures translator.Abstract() == RemoveAll(old(translator.Abstract()), fabric, listed)
    {
      for i := 0 to |listed|
        invariant translator.Abstract() == RemoveAll(old(translator.Abstract()), fabric, listed[..i])
      {
        assert listed[..i + 1][..i] == listed[..i];
        translator.RemoveMatterGroup(MatterGroup(fabric, listed[i]));
      }
      assert listed[..|listed|] == listed;
    }

    /** `InvokeCommand`: the command passed on to Unify, if one is. */
    method InvokeCommand(r: GroupRequest) returns (sent: Option<GroupCommand>)
      requires translator.Valid()
      modifies translator, translator.storage
      ensures translator.Valid()
      ensures Invoked(translator.Abstract(), sent) == Invoke(old(translator.Abstract()), r)
      ensures translator.Abstract() == Do(old(translator.Abstract()), Command(r))
    {
      match r
      case AddGroup(g, name, hasEndpoint, known, putOk) =>
        if hasEndpoint {
          return None;
        }
        if !known {
          var ok := translator.AddMatterGroup(g, putOk);
          if !ok {
            return None;
          }
        }
        var unifyGroup := translator.GetUnifyGroup(g);
        if unifyGroup.Some? {
          return Some(AddGroupCommand(name, unifyGroup.value));
        }
        return None;
      case RemoveGroup(g) =>
        var unifyGroup := translator.GetUnifyGroup(g);
        if unifyGroup.Some? {
          translator.RemoveMatterGroup(g);
          return Some(RemoveGroupCommand(unifyGroup.value));
        }
        assert translator.storage.kvs - {GroupKey(g)} == translator.storage.kvs;
        return None;
      case RemoveAllGroups(fabric, listed) =>
        RemoveAllGroups(fabric, listed);
        return Some(RemoveAllGroupsCommand);
      case AddGroupIfIdentifying(g, name, hasEndpoint, known, putOk, identifyTime) =>
        if identifyTime.None? {
          return None;
        }
        if identifyTime.value != 0 {
          if hasEndpoint {
            return None;
          }
          if !known {
            var ok := translator.AddMatterGroup(g, putOk);
            if !ok {
              return None;
            }
          }
          var unifyGroup := translator.GetUnifyGroup(g);
          if unifyGroup.Some? {
            return Some(AddGroupIfIdentifyingCommand(name, unifyGroup.value));
          }
        }
        return None;
      case Undecodable =>
        return None;
    }
  }

  /** Removing all groups of a fabric removes exactly the listed ones, and no endpoint mapping. */
  lemma {:induction false} RemoveAllIsExact(s: Groups, fabric: nat, listed: seq<nat>)
    requires fabric < 256 && forall i :: 0 <= i < |listed| ==> listed[i] < 0x1_0000
    ensures var s' := RemoveAll(s, fabric, listed);
      && s'.last == s.last && s'.inUse == s.inUse
      && (forall g :: IsGroup(g) ==>
            UnifyGroup(s', g) == if g.fabric == fabric && g.group in listed then None else UnifyGroup(s, g))
      && (forall a :: IsAddress(a) ==> Lookup(s'.store, EndpointKey(a)) == Lookup(s.store, EndpointKey(a)))
  {
    if listed == [] {
    } else {
      var front, end := listed[..|listed| - 1], listed[|listed| - 1];
      assert listed == front + [end];
      RemoveAllIsExact(s, fabric, front);
      GroupKeysInjective();
      FamiliesDisjoint();
    }
  }

  // ---- Distinct groups -------------------------------------------------------------

  ghost predicate StoredGroup(store: Store, g: MatterGroup) {
    IsGroup(g) && GroupKey(g) in store
  }

  /** No two Matter groups share a Unify group. */
  ghost predicate Separate(store: Store) {
    forall g, h :: StoredGroup(store, g) && StoredGroup(store, h) && store[GroupKey(g)] == store[GroupKey(h)] ==> g == h
  }

  /** Another group holds this id already. */
  ghost predicate TakenByOther(store: Store, g: MatterGroup, id: nat) {
    exists h :: StoredGroup(store, h) && h != g && store[GroupKey(h)] == id
  }

  datatype Step =
    | Command(request: GroupRequest)
    | Report(topic: string)
    | PutEndpoint(address: Address, matterEndpoint: nat)
    | DeleteEndpoint(address: Address)
    | Restart

  ghost predicate WellFormed(step: Step) {
    match step
    case Command(AddGroup(g, _, _, _, _)) => IsGroup(g)
    case Command(AddGroupIfIdentifying(g, _, _, _, _, _)) => IsGroup(g)
    case Command(RemoveGroup(g)) => IsGroup(g)
    case Command(RemoveAllGroups(fabric, listed)) =>
      fabric < 256 && forall i :: 0 <= i < |listed| ==> listed[i] < 0x1_0000
    case PutEndpoint(a, _) => IsAddress(a)
    case DeleteEndpoint(a) => IsAddress(a)
    case _ => true
  }

  function Do(s: Groups, step: Step): Groups
    requires s.last <= LAST_GROUP
  {
    match step
    case Command(r) => Invoke(s, r).groups
    case Report(topic) => s.(inUse := s.inUse + Reported(topic))
    case PutEndpoint(a, id) => s.(store := s.store[EndpointKey(a) := id])
    case DeleteEndpoint(a) => s.(store := s.store - {EndpointKey(a)})
    case Restart => Groups(1, {}, s.store)
  }

  /** The step allocates an id, and the store takes it if there is one. */
  predicate PersistsNew(step: Step) {
    step.Command? && Allocates(step.request) && step.request.putOk
  }

  /** No other group's id is unreported and next in line for the allocator. */
  ghost predicate Fresh(s: Groups, step: Step) {
    PersistsNew(step) ==>
      forall h :: StoredGroup(s.store, h) && h != step.request.group ==>
        !NextInLine(s.inUse, s.last, s.store[GroupKey(h)])
  }

  /** Every id in the persisted mapping has been reported. */
  ghost predicate AllReported(s: Groups) {
    forall g :: StoredGroup(s.store, g) ==> s.store[GroupKey(g)] in s.inUse
  }

  lemma {:induction false} RemoveAllLast(s: Groups, fabric: nat, listed: seq<nat>)
    ensures RemoveAll(s, fabric, listed).last == s.last
  {
    if listed == [] {
    } else {
      RemoveAllLast(s, fabric, listed[..|listed| - 1]);
    }
  }

  lemma DoKeepsRange(s: Groups, step: Step)
    requires s.last <= LAST_GROUP
    ensures Do(s, step).last <= LAST_GROUP
  {
    ScanSpec(s.inUse, s.last);
    if step.Command? && step.request.RemoveAllGroups? {
      RemoveAllLast(s, step.request.fabric, step.request.listed);
    }
  }

  lemma PutSeparate(store: Store, g: MatterGroup, id: nat)
    requires Separate(store) && IsGroup(g)
    ensures Separate(store[GroupKey(g) := id]) <==> !TakenByOther(store, g, id)
  {
    GroupKeysInjective();
    var store' := store[GroupKey(g) := id];
    if TakenByOther(store, g, id) {
      var h :| StoredGroup(store, h) && h != g && store[GroupKey(h)] == id;
      assert StoredGroup(store', h) && StoredGroup(store', g) && store'[GroupKey(h)] == id;
    } else {
      forall h | StoredGroup(store', h) && h != g
        ensures StoredGroup(store, h) && store'[GroupKey(h)] == store[GroupKey(h)] && store[GroupKey(h)] != id
      {}
    }
  }

  /** Whoever's mapping is only dropped or left alone, the rest stays separate. */
  lemma SubsetSeparate(store: Store, store': Store)
    requires Separate(store)
    requires forall g :: IsGroup(g) && GroupKey(g) in store' ==>
      GroupKey(g) in store && store'[GroupKey(g)] == store[GroupKey(g)]
    ensures Separate(store')
  {
    assert forall g :: StoredGroup(store', g) ==> StoredGroup(store, g);
  }

  lemma TakenIsNextInLine(s: Groups, g: MatterGroup, id: nat)
    requires s.last <= LAST_GROUP && Scan(s.inUse, s.last) == Scanned(id, true)
    ensures TakenByOther(s.store, g, id) <==>
      exists h :: StoredGroup(s.store, h) && h != g && NextInLine(s.inUse, s.last, s.store[GroupKey(h)])
  {
    forall h | StoredGroup(s.store, h)
      ensures s.store[GroupKey(h)] == id <==> NextInLine(s.inUse, s.last, s.store[GroupKey(h)])
    {
      ScanTakesNextInLine(s.inUse, s.last, s.store[GroupKey(h)]);
    }
  }

  lemma NothingInLine(s: Groups)
    requires s.last <= LAST_GROUP && !Scan(s.inUse, s.last).found
    ensures forall id: nat :: !NextInLine(s.inUse, s.last, id)
  {
    forall id: nat
      ensures !NextInLine(s.inUse, s.last, id)
    {
      ScanTakesNextInLine(s.inUse, s.last, id);
    }
  }

  /** One step from separate groups: they stay so if and only if no other group's id is unreported and next in line. */
  lemma StepSeparate(s: Groups, step: Step)
    requires s.last <= LAST_GROUP && WellFormed(step) && Separate(s.store)
    ensures Separate(Do(s, step).store) <==> Fresh(s, step)
  {
    FamiliesDisjoint();
    var s' := Do(s, step);
    match step
    case Command(r) =>
      if Allocates(r) && r.putOk && Scan(s.inUse, s.last).found {
        var id := Scan(s.inUse, s.last).last;
        PutSeparate(s.store, r.group, id);
        TakenIsNextInLine(s, r.group, id);
      } else if PersistsNew(step) {
        NothingInLine(s);
        SubsetSeparate(s.store, s'.store);
      } else if r.RemoveAllGroups? {
        RemoveAllIsExact(s, r.fabric, r.listed);
        forall g | IsGroup(g) && GroupKey(g) in s'.store
          ensures GroupKey(g) in s.store && s'.store[GroupKey(g)] == s.store[GroupKey(g)]
        {
          assert UnifyGroup(s', g) == UnifyGroup(s, g);
        }
        SubsetSeparate(s.store, s'.store);
      } else {
        SubsetSeparate(s.store, s'.store);
      }
    case _ => SubsetSeparate(s.store, s'.store);
  }

  /** A by-group topic reports exactly the group it names. */
  lemma ReportNamesItsGroup(id: nat, protocol: string)
    requires id <= LAST_GROUP && SlashFree(protocol)
    ensures Reported("ucl/by-group/" + Dec(id) + "/NodeList/" + protocol) == {id}
    ensures Reported(NodeListTopic(id, protocol)) == {id}
  {
    NodeListRoundTrip(id, protocol);
    NumeralOfDec(id);
  }

  /** Reporting every persisted id before an allocation makes the allocation fresh. */
  lemma ReportedMeansFresh(s: Groups, step: Step)
    requires AllReported(s)
    ensures Fresh(s, step)
  {}

  function Run(s: Groups, steps: seq<Step>): (s': Groups)
    requires s.last <= LAST_GROUP
    ensures s'.last <= LAST_GROUP
    decreases |steps|
  {
    if steps == [] then s
    else
      var before := Run(s, steps[..|steps| - 1]);
      DoKeepsRange(before, steps[|steps| - 1]);
      Do(before, steps[|steps| - 1])
  }

  ghost predicate AlwaysSeparate(s: Groups, steps: seq<Step>)
    requires s.last <= LAST_GROUP
  {
    forall i :: 0 <= i <= |steps| ==> Separate(Run(s, steps[..i]).store)
  }

  ghost predicate AlwaysFresh(s: Groups, steps: seq<Step>)
    requires s.last <= LAST_GROUP
  {
    forall i :: 0 <= i < |steps| ==> Fresh(Run(s, steps[..i]), steps[i])
  }

  lemma RunNext(s: Groups, steps: seq<Step>, i: nat)
    requires s.last <= LAST_GROUP && i < |steps|
    ensures Run(s, steps[..i + 1]) == Do(Run(s, steps[..i]), steps[i])
  {
    assert steps[..i + 1][..i] == steps[..i];
  }

  lemma {:induction false} FreshUpTo(s: Groups, steps: seq<Step>, n: nat)
    requires s.last <= LAST_GROUP && Separate(s.store) && n <= |steps| && AlwaysFresh(s, steps)
    requires forall i :: 0 <= i < |steps| ==> WellFormed(steps[i])
    ensures Separate(Run(s, steps[..n]).store)
  {
    if n == 0 {
    } else {
      FreshUpTo(s, steps, n - 1);
      RunNext(s, steps, n - 1);
      StepSeparate(Run(s, steps[..n - 1]), steps[n - 1]);
    }
  }

  /**
   * Every run of group commands, reports, endpoint writes and restarts: no two Matter groups ever
   * share a Unify group if and only if at each allocation no other group's id was unreported and
   * next in line for the allocator.
   */
  lemma RunSeparate(s: Groups, steps: seq<Step>)
    requires s.last <= LAST_GROUP && Separate(s.store)
    requires forall i :: 0 <= i < |steps| ==> WellFormed(steps[i])
    ensures AlwaysSeparate(s, steps) <==> AlwaysFresh(s, steps)
  {
    if AlwaysFresh(s, steps) {
      forall i | 0 <= i <= |steps|
        ensures Separate(Run(s, steps[..i]).store)
      {
        FreshUpTo(s, steps, i);
      }
    }
    if AlwaysSeparate(s, steps) {
      forall i | 0 <= i < |steps|
        ensures Fresh(Run(s, steps[..i]), steps[i])
      {
        RunNext(s, steps, i);
        assert Separate(Run(s, steps[..i]).store) && Separate(Run(s, steps[..i + 1]).store);
        StepSeparate(Run(s, steps[..i]), steps[i]);
      }
    }
  }

  /** In particular when each allocation waits until every persisted id has been reported. */
  lemma ReportedRunSeparate(s: Groups, steps: seq<Step>)
    requires s.last <= LAST_GROUP && Separate(s.store)
    requires forall i :: 0 <= i < |steps| ==> WellFormed(steps[i])
    requires forall i :: 0 <= i < |steps| && steps[i].Command? && Allocates(steps[i].request) ==>
      AllReported(Run(s, steps[..i]))
    ensures AlwaysSeparate(s, steps)
  {
    forall i | 0 <= i < |steps|
      ensures Fresh(Run(s, steps[..i]), steps[i])
    {
      if steps[i].Command? && Allocates(steps[i].request) {
        ReportedMeansFresh(Run(s, steps[..i]), steps[i]);
      }
    }
    RunSeparate(s, steps);
  }

  // ---- What each command does ------------------------------------------------------

  /** The mapping of one group is gone, and everything else in the store stands as it stood. */
  ghost predicate ForgetsOnly(before: Store, after: Store, g: MatterGroup) {
    && GroupKey(g) !in after
    && forall key :: key != GroupKey(g) ==>
         (key in after <==> key in before) && (key in after ==> after[key] == before[key])
  }

  /** The group is mapped to this id, and everything else in the store stands as it stood. */
  ghost predicate MapsOnly(before: Store, after: Store, g: MatterGroup, id: nat) {
    && GroupKey(g) in after && after[GroupKey(g)] == id
    && forall key :: key != GroupKey(g) ==>
         (key in after <==> key in before) && (key in after ==> after[key] == before[key])
  }

  /** Removing a group drops its mapping, and tells Unify exactly when there was one. */
  lemma RemoveGroupMeans(s: Groups, g: MatterGroup)
    requires s.last <= LAST_GROUP
    ensures var r := Invoke(s, RemoveGroup(g));
      && r.sent == (if GroupKey(g) in s.store then Some(RemoveGroupCommand(s.store[GroupKey(g)])) else None)
      && ForgetsOnly(s.store, r.groups.store, g)
      && r.groups.last == s.last && r.groups.inUse == s.inUse
  {}

  /** Removing all groups always tells Unify; a request that cannot be decoded does nothing. */
  lemma OtherCommandsMean(s: Groups, fabric: nat, listed: seq<nat>)
    requires s.last <= LAST_GROUP
    ensures Invoke(s, RemoveAllGroups(fabric, listed)).sent == Some(RemoveAllGroupsCommand)
    ensures Invoke(s, Undecodable) == Invoked(s, None)
  {}

  /** An adding request that is acted on: the endpoint is new to the group and, if it matters, identifying. */
  predicate Adds(r: GroupRequest) {
    || (r.AddGroup? && !r.hasEndpoint)
    || (r.AddGroupIfIdentifying? && !r.hasEndpoint && r.identifyTime.Some? && r.identifyTime.value != 0)
  }

  /**
   * Adding a group the provider knows changes nothing, and tells Unify exactly when the group is
   * mapped. Adding one it does not know maps it to the id next in line and tells Unify, exactly
   * when there is such an id and the store takes it; otherwise nothing is stored or sent.
   */
  lemma AddGroupMeans(s: Groups, r: GroupRequest)
    requires s.last <= LAST_GROUP && (r.AddGroup? || r.AddGroupIfIdentifying?)
    ensures var after, sent := Invoke(s, r).groups, Invoke(s, r).sent;
      if !Adds(r) then after == s && sent == None
      else if r.known then
        after == s && sent == (if GroupKey(r.group) in s.store then Some(Told(r, s.store[GroupKey(r.group)])) else None)
      else if r.putOk && exists id: nat :: NextInLine(s.inUse, s.last, id) then
        exists id: nat :: NextInLine(s.inUse, s.last, id) && MapsOnly(s.store, after.store, r.group, id)
          && sent == Some(Told(r, id)) && after.last == id && after.inUse == s.inUse
      else
        && after.store == s.store && sent == None && after.inUse == s.inUse
        && (forall id: nat :: NextInLine(s.inUse, s.last, id) ==> after.last == id)
        && ((forall id: nat :: !NextInLine(s.inUse, s.last, id)) ==> after.last == 65535)
  {
    if Adds(r) && !r.known {
      var scanned := Scan(s.inUse, s.last);
      ScanSpec(s.inUse, s.last);
      if scanned.found {
        ScanTakesNextInLine(s.inUse, s.last, scanned.last);
      } else {
        NothingInLine(s);
      }
    }
  }

  /** A report marks its group and does nothing else. */
  lemma ReportMeans(s: Groups, id: nat, protocol: string)
    requires s.last <= LAST_GROUP && id <= LAST_GROUP && SlashFree(protocol)
    ensures Do(s, Report("ucl/by-group/" + Dec(id) + "/NodeList/" + protocol)) == s.(inUse := s.inUse + {id})
  {
    ReportNamesItsGroup(id, protocol);
  }

  /** An endpoint write leaves every group alone; a restart forgets the marks but not the mappings. */
  lemma EnvironmentMeans(s: Groups, g: MatterGroup, a: Address, matterEndpoint: nat)
    requires s.last <= LAST_GROUP && IsGroup(g) && IsAddress(a)
    ensures UnifyGroup(Do(s, PutEndpoint(a, matterEndpoint)), g) == UnifyGroup(s, g)
    ensures UnifyGroup(Do(s, DeleteEndpoint(a)), g) == UnifyGroup(s, g)
    ensures Do(s, Restart) == Groups(1, {}, s.store)
  {
    KeyClash(a, g);
  }

  /** The command of an adding request carries its name. */
  function Told(r: GroupRequest, id: nat): GroupCommand
    requires r.AddGroup? || r.AddGroupIfIdentifying?
  {
    if r.AddGroup? then AddGroupCommand(r.name, id) else AddGroupIfIdentifyingCommand(r.name, id)
  }

  // ---- Runs without a restart ------------------------------------------------------

  /** Only the id the allocator stands at can be held by a group and not be reported yet. */
  ghost predicate OnlyLastPending(s: Groups) {
    forall g :: StoredGroup(s.store, g) ==> s.store[GroupKey(g)] in s.inUse || s.store[GroupKey(g)] == s.last
  }

  /** The id the allocator stands at is reported, or no other group holds it. */
  ghost predicate LastReported(s: Groups, step: Step) {
    PersistsNew(step) && s.last !in s.inUse ==> !TakenByOther(s.store, step.request.group, s.last)
  }

  lemma FreshIsLastReported(s: Groups, step: Step)
    requires s.last <= LAST_GROUP && OnlyLastPending(s)
    ensures Fresh(s, step) <==> LastReported(s, step)
  {
    assert s.last !in s.inUse ==> NextInLine(s.inUse, s.last, s.last);
  }

  lemma AddKeepsPending(s: Groups, g: MatterGroup, putOk: bool)
    requires s.last <= LAST_GROUP && IsGroup(g) && OnlyLastPending(s)
    ensures OnlyLastPending(Add(s, g, putOk).groups)
  {
    ScanSpec(s.inUse, s.last);
    GroupKeysInjective();
    var s' := Add(s, g, putOk).groups;
    assert s'.last == s.last || s.last in s.inUse;
    forall h | StoredGroup(s'.store, h)
      ensures s'.store[GroupKey(h)] in s'.inUse || s'.store[GroupKey(h)] == s'.last
    {
      assert h == g || StoredGroup(s.store, h);
    }
  }

  lemma PendingKept(s: Groups, step: Step)
    requires s.last <= LAST_GROUP && WellFormed(step) && !step.Restart? && OnlyLastPending(s)
    ensures OnlyLastPending(Do(s, step))
  {
    FamiliesDisjoint();
    if step.Command? && Allocates(step.request) {
      AddKeepsPending(s, step.request.group, step.request.putOk);
    } else {
      if step.Command? && step.request.RemoveAllGroups? {
        RemoveAllIsExact(s, step.request.fabric, step.request.listed);
      }
      forall g | StoredGroup(Do(s, step).store, g)
        ensures StoredGroup(s.store, g) && Do(s, step).store[GroupKey(g)] == s.store[GroupKey(g)]
      {
        assert UnifyGroup(Do(s, step), g) == UnifyGroup(s, g);
      }
    }
  }

  lemma {:induction false} PendingUpTo(s: Groups, steps: seq<Step>, n: nat)
    requires s.last <= LAST_GROUP && OnlyLastPending(s) && n <= |steps|
    requires forall i :: 0 <= i < |steps| ==> WellFormed(steps[i]) && !steps[i].Restart?
    ensures OnlyLastPending(Run(s, steps[..n]))
  {
    if n == 0 {
    } else {
      PendingUpTo(s, steps, n - 1);
      RunNext(s, steps, n - 1);
      PendingKept(Run(s, steps[..n - 1]), steps[n - 1]);
    }
  }

  /**
   * Without a restart the condition is the protocol's: no two Matter groups ever share a Unify
   * group if and only if each allocation comes when the last id allocated has been reported, or
   * is held by no other group.
   */
  lemma RunSeparateWithoutRestart(s: Groups, steps: seq<Step>)
    requires s.last <= LAST_GROUP && Separate(s.store) && OnlyLastPending(s)
    requires forall i :: 0 <= i < |steps| ==> WellFormed(steps[i]) && !steps[i].Restart?
    ensures AlwaysSeparate(s, steps) <==> forall i :: 0 <= i < |steps| ==> LastReported(Run(s, steps[..i]), steps[i])
  {
    RunSeparate(s, steps);
    forall i | 0 <= i < |steps|
      ensures Fresh(Run(s, steps[..i]), steps[i]) <==> LastReported(Run(s, steps[..i]), steps[i])
    {
      PendingUpTo(s, steps, i);
      FreshIsLastReported(Run(s, steps[..i]), steps[i]);
    }
  }

  /** Without the report in between, two groups added one after the other get the same Unify group. */
  lemma UnreportedGroupsShare(g: MatterGroup, h: MatterGroup)
    requires IsGroup(g) && IsGroup(h) && g != h
    ensures
      var first := Add(Groups(1, {}, map[]), g, true);
      var second := Add(first.groups, h, true);
      && first.ok && second.ok
      && UnifyGroup(second.groups, g) == UnifyGroup(second.groups, h) == Some(1)
      && !Separate(second.groups.store)
  {
    GroupKeyInjective(g, h);
    var second := Add(Add(Groups(1, {}, map[]), g, true).groups, h, true);
    assert StoredGroup(second.groups.store, g) && StoredGroup(second.groups.store, h);
  }

  /** The Unify group named in a command is the one the mapping gives: after adding, before removing. */
  lemma CommandNamesTheMapping(s: Groups, r: GroupRequest)
    requires s.last <= LAST_GROUP && Invoke(s, r).sent.Some?
    ensures match Invoke(s, r).sent.value
      case AddGroupCommand(name, id) =>
        r.AddGroup? && name == r.name && UnifyGroup(Invoke(s, r).groups, r.group) == Some(id)
      case AddGroupIfIdentifyingCommand(name, id) =>
        r.AddGroupIfIdentifying? && name == r.name && UnifyGroup(Invoke(s, r).groups, r.group) == Some(id)
      case RemoveGroupCommand(id) =>
        r.RemoveGroup? && UnifyGroup(s, r.removed) == Some(id) && UnifyGroup(Invoke(s, r).groups, r.removed) == None
      case RemoveAllGroupsCommand => r.RemoveAllGroups?
  {}
}
