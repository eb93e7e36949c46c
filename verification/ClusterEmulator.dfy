/** The emulators' dispatch index, and what it is an index of. */
module ClusterEmulator {
  import opened Text

  datatype Emulator = Emulator(name: string, cluster: nat, commands: seq<nat>, attributes: seq<nat>)

  /** Cluster and command, or cluster and attribute. */
  type Key = (nat, nat)

  const CLUSTER_REVISION: nat := 0xFFFD
  const FEATURE_MAP: nat := 0xFFFC
  const EVENT_LIST: nat := 0xFFFA

  predicate IsGlobal(attribute: nat) {
    attribute == CLUSTER_REVISION || attribute == FEATURE_MAP || attribute == EVENT_LIST
  }

  datatype Kind = Commands | Attributes

  function Declared(e: Emulator, kind: Kind): seq<nat> {
    if kind.Commands? then e.commands else e.attributes
  }

  predicate Declares(e: Emulator, kind: Kind, key: Key) {
    e.cluster == key.0 && key.1 in Declared(e, kind)
  }

  /** Linear search: the position of the first emulator that declares the pair. */
  function FirstDeclaring(emulators: seq<Emulator>, kind: Kind, key: Key): Option<nat> {
    if emulators == [] then None
    else
      match FirstDeclaring(emulators[..|emulators| - 1], kind, key)
      case Some(i) => Some(i)
      case None => if Declares(emulators[|emulators| - 1], kind, key) then Some(|emulators| - 1) else None
  }

  lemma {:induction false} FirstDeclaringSpec(emulators: seq<Emulator>, kind: Kind, key: Key)
    ensures match FirstDeclaring(emulators, kind, key)
      case Some(i) =>
        i < |emulators| && Declares(emulators[i], kind, key)
        && forall j :: 0 <= j < i ==> !Declares(emulators[j], kind, key)
      case None => forall j :: 0 <= j < |emulators| ==> !Declares(emulators[j], kind, key)
  {
    if emulators == [] {
    } else {
      FirstDeclaringSpec(emulators[..|emulators| - 1], kind, key);
    }
  }

  function At(index: map<Key, nat>, key: Key): Option<nat> {
    if key in index then Some(index[key]) else None
  }

  /** The index answers every pair as linear search does. */
  ghost predicate Indexes(index: map<Key, nat>, emulators: seq<Emulator>, kind: Kind) {
    forall key :: At(index, key) == FirstDeclaring(emulators, kind, key)
  }

  /** The pairs of one more emulator went in where nothing stood. */
  ghost predicate Extends(grown: map<Key, nat>, index: map<Key, nat>, cluster: nat, declared: seq<nat>, i: nat) {
    forall key :: At(grown, key) == (
      if key in index then Some(index[key])
      else if cluster == key.0 && key.1 in declared then Some(i)
      else None)
  }

  datatype Access = Global(attribute: nat) | Dispatched(emulator: nat) | Refused | Throws

  ghost predicate Nobody(emulators: seq<Emulator>, kind: Kind, key: Key) {
    forall i :: 0 <= i < |emulators| ==> !Declares(emulators[i], kind, key)
  }

  /** Emulator i declares the pair, and none before it does. */
  ghost predicate First(emulators: seq<Emulator>, kind: Kind, key: Key, i: nat) {
    && i < |emulators| && Declares(emulators[i], kind, key)
    && forall j :: 0 <= j < i ==> !Declares(emulators[j], kind, key)
  }

  /** The name map holds, for each emulated cluster name, the first emulator that has it, and no other name. */
  ghost predicate IndexesNames(byName: map<string, nat>, emulators: seq<Emulator>) {
    && (forall i :: 0 <= i < |emulators| ==> emulators[i].name in byName)
    && (forall name :: name in byName ==> FirstNamed(emulators, name, byName[name]))
  }

  ghost predicate FirstNamed(emulators: seq<Emulator>, name: string, i: nat) {
    i < |emulators| && emulators[i].name == name && forall j :: 0 <= j < i ==> emulators[j].name != name
  }

  /** The index has a pair exactly when some emulator declares it, and gives the first one in the list that does. */
  lemma DispatchIsLinearSearch(index: map<Key, nat>, emulators: seq<Emulator>, kind: Kind, key: Key)
    requires Indexes(index, emulators, kind)
    ensures key in index <==> !Nobody(emulators, kind, key)
    ensures key in index ==> First(emulators, kind, key, index[key])
  {
    FirstDeclaringSpec(emulators, kind, key);
    assert At(index, key) == FirstDeclaring(emulators, kind, key);
  }

  /** What reading and writing an attribute come to, by linear search. */
  function Read(emulators: seq<Emulator>, cluster: nat, attribute: nat): Access {
    if IsGlobal(attribute) then Global(attribute)
    else
      match FirstDeclaring(emulators, Attributes, (cluster, attribute))
      case Some(i) => Dispatched(i)
      case None => Refused
  }

  function Written(emulators: seq<Emulator>, cluster: nat, attribute: nat): Access {
    match FirstDeclaring(emulators, Attributes, (cluster, attribute))
    case Some(i) => Dispatched(i)
    case None => if IsGlobal(attribute) then Throws else Refused
  }

  /**
   * Writing an attribute that is_attribute_emulated accepts still fails, with an exception,
   * exactly when it is global and no emulator declares it; reading never does. The two agree on
   * exactly the attributes that are not global.
   */
  lemma GlobalWriteThrows(emulators: seq<Emulator>, cluster: nat, attribute: nat)
    ensures var read, written := Read(emulators, cluster, attribute), Written(emulators, cluster, attribute);
      && (written == Throws <==>
            attribute in {0xFFFA, 0xFFFC, 0xFFFD} && Nobody(emulators, Attributes, (cluster, attribute)))
      && read != Throws
      && (read == written <==> attribute !in {0xFFFA, 0xFFFC, 0xFFFD})
  {
    FirstDeclaringSpec(emulators, Attributes, (cluster, attribute));
  }

  ghost predicate AllIndexed(
    byName: map<string, nat>, byCommand: map<Key, nat>, byAttribute: map<Key, nat>, emulators: seq<Emulator>)
  {
    && IndexesNames(byName, emulators)
    && Indexes(byCommand, emulators, Commands)
    && Indexes(byAttribute, emulators, Attributes)
  }

  class ClusterEmulatorIndex {
    ghost const emulators: seq<Emulator>
    var byName: map<string, nat>
    var byCommand: map<Key, nat>
    var byAttribute: map<Key, nat>

    ghost predicate Valid()
      reads this
    {
      AllIndexed(byName, byCommand, byAttribute, emulators)
    }

    /** `insert` leaves an existing entry alone. */
    constructor (emulators: seq<Emulator>)
      ensures this.emulators == emulators && Valid()
    {
      this.emulators := emulators;
      byName, byCommand, byAttribute := map[], map[], map[];
      new;
      for i := 0 to |emulators|
        invariant AllIndexed(byName, byCommand, byAttribute, emulators[..i])
      {
        assert emulators[..i] + [emulators[i]] == emulators[..i + 1];
        byName, byCommand, byAttribute :=
          IndexNext(byName, byCommand, byAttribute, i, emulators[i], emulators[..i]);
      }
      assert emulators[..|emulators|] == emulators;
    }

    /** The outer loop's body. */
    static method IndexNext(
        byName: map<string, nat>, byCommand: map<Key, nat>, byAttribute: map<Key, nat>, i: nat, e: Emulator,
        ghost before: seq<Emulator>)
      returns (names: map<string, nat>, commands: map<Key, nat>, attributes: map<Key, nat>)
      requires AllIndexed(byName, byCommand, byAttribute, before) && |before| == i
      ensures AllIndexed(names, commands, attributes, before + [e])
    {
      names := IndexName(byName, i, e, before);
      commands := IndexOne(byCommand, i, e, Commands, before);
      attributes := IndexOne(byAttribute, i, e, Attributes, before);
    }

    static method IndexName(index: map<string, nat>, i: nat, e: Emulator, ghost before: seq<Emulator>)
      returns (grown: map<string, nat>)
      requires IndexesNames(index, before) && |before| == i
      ensures IndexesNames(grown, before + [e])
    {
      grown := if e.name in index then index else index[e.name := i];
    }

    /** The inner loop, over what one emulator declares. */
    static method IndexOne(index: map<Key, nat>, i: nat, e: Emulator, kind: Kind, ghost before: seq<Emulator>)
      returns (grown: map<Key, nat>)
      requires Indexes(index, before, kind) && |before| == i
      ensures Indexes(grown, before + [e], kind)
    {
      grown := index;
      var declared := Declared(e, kind);
      for k := 0 to |declared|
        invariant Extends(grown, index, e.cluster, declared[..k], i)
      {
        assert declared[..k + 1] == declared[..k] + [declared[k]];
        var key := (e.cluster, declared[k]);
        if key !in grown {
          grown := grown[key := i];
        }
      }
      assert declared[..|declared|] == declared;
      assert (before + [e])[..i] == before;
    }

    /** The emulator that completes a cluster's description. */
    method EmulatorOf(name: string) returns (emulator: Option<nat>)
      requires Valid()
      ensures match emulator
        case Some(i) => FirstNamed(emulators, name, i)
        case None => forall i :: 0 <= i < |emulators| ==> emulators[i].name != name
    {
      emulator := if name in byName then Some(byName[name]) else None;
    }

    method IsCommandEmulated(cluster: nat, command: nat) returns (emulated: bool)
      requires Valid()
      ensures emulated <==> !Nobody(emulators, Commands, (cluster, command))
    {
      emulated := (cluster, command) in byCommand;
      DispatchIsLinearSearch(byCommand, emulators, Commands, (cluster, command));
    }

    method IsAttributeEmulated(cluster: nat, attribute: nat) returns (emulated: bool)
      requires Valid()
      ensures emulated <==> IsGlobal(attribute) || !Nobody(emulators, Attributes, (cluster, attribute))
    {
      emulated := IsGlobal(attribute) || (cluster, attribute) in byAttribute;
      DispatchIsLinearSearch(byAttribute, emulators, Attributes, (cluster, attribute));
    }

    /** The emulator a command goes to; none means not implemented. */
    method InvokeCommand(cluster: nat, command: nat) returns (emulator: Option<nat>)
      requires Valid()
      ensures match emulator
        case Some(i) => First(emulators, Commands, (cluster, command), i)
        case None => Nobody(emulators, Commands, (cluster, command))
    {
      DispatchIsLinearSearch(byCommand, emulators, Commands, (cluster, command));
      var emulated := IsCommandEmulated(cluster, command);
      if emulated {
        return Some(byCommand[(cluster, command)]);
      }
      return None;
    }

    method ReadAttribute(cluster: nat, attribute: nat) returns (access: Access)
      requires Valid()
      ensures access == Read(emulators, cluster, attribute)
      ensures IsGlobal(attribute) ==> access == Global(attribute)
      ensures !IsGlobal(attribute) ==>
        match access
        case Dispatched(i) => First(emulators, Attributes, (cluster, attribute), i)
        case Refused => Nobody(emulators, Attributes, (cluster, attribute))
        case _ => false
    {
      DispatchIsLinearSearch(byAttribute, emulators, Attributes, (cluster, attribute));
      if IsGlobal(attribute) {
        return Global(attribute);
      }
      var emulated := IsAttributeEmulated(cluster, attribute);
      if emulated {
        return Dispatched(byAttribute[(cluster, attribute)]);
      }
      return Refused;
    }

    /** `at` throws when the map has no such key. */
    method WriteAttribute(cluster: nat, attribute: nat) returns (access: Access)
      requires Valid()
      ensures access == Written(emulators, cluster, attribute)
      ensures match access
        case Dispatched(i) => First(emulators, Attributes, (cluster, attribute), i)
        case Throws => IsGlobal(attribute) && Nobody(emulators, Attributes, (cluster, attribute))
        case Refused => !IsGlobal(attribute) && Nobody(emulators, Attributes, (cluster, attribute))
        case Global(_) => false
    {
      DispatchIsLinearSearch(byAttribute, emulators, Attributes, (cluster, attribute));
      var emulated := IsAttributeEmulated(cluster, attribute);
      if emulated {
        if (cluster, attribute) !in byAttribute {
          return Throws;
        }
        return Dispatched(byAttribute[(cluster, attribute)]);
      }
      return Refused;
    }
  }
}
