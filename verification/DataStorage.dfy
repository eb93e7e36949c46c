/** The persisted mappings of `matter_data_storage`: two families of keys sharing one key-value store. */
module DataStorage {
  import opened Text

  /** The value type of the store is `uint16_t` for both families. */
  type Store = map<string, nat>

  /** A Unify endpoint: the node's unid and the endpoint number (`uint8_t`). */
  datatype Address = Address(unid: string, endpoint: nat)

  /** A Matter group: the fabric index (`uint8_t`) and the group id (`uint16_t`). */
  datatype MatterGroup = MatterGroup(fabric: nat, group: nat)

  function EndpointKey(a: Address): string {
    a.unid + ['-'] + Dec(a.endpoint)
  }

  function GroupKey(g: MatterGroup): string {
    Dec(g.fabric) + ['-'] + Dec(g.group)
  }

  ghost predicate IsFabricNumeral(unid: string) {
    exists fabric: nat :: fabric < 256 && unid == Dec(fabric)
  }

  /** An endpoint whose key cannot be taken for a group's. */
  ghost predicate IsAddress(a: Address) {
    a.endpoint < 256 && !IsFabricNumeral(a.unid)
  }

  predicate IsGroup(g: MatterGroup) {
    g.fabric < 256 && g.group < 0x1_0000
  }

  // ---- The keys --------------------------------------------------------------------

  lemma DecHasNoDash(n: nat)
    ensures Free(Dec(n), '-')
  {
    DecValue(n);
  }

  lemma EndpointKeyInjective(a: Address, b: Address)
    ensures EndpointKey(a) == EndpointKey(b) ==> a == b
  {
    if EndpointKey(a) == EndpointKey(b) {
      DecHasNoDash(a.endpoint);
      DecHasNoDash(b.endpoint);
      SplitAtLast(a.unid, Dec(a.endpoint), b.unid, Dec(b.endpoint), '-');
      DecInjective(a.endpoint, b.endpoint);
    }
  }

  lemma GroupKeyInjective(g: MatterGroup, h: MatterGroup)
    ensures GroupKey(g) == GroupKey(h) ==> g == h
  {
    EndpointKeyInjective(Address(Dec(g.fabric), g.group), Address(Dec(h.fabric), h.group));
    DecInjective(g.fabric, h.fabric);
  }

  /** Exactly when an endpoint and a group fight over one key: the unid is the fabric's numeral. */
  lemma KeyClash(a: Address, g: MatterGroup)
    ensures EndpointKey(a) == GroupKey(g) <==> a.unid == Dec(g.fabric) && a.endpoint == g.group
  {
    EndpointKeyInjective(a, Address(Dec(g.fabric), g.group));
  }

  /** The two families never meet on addresses: what one writes, the other does not see. */
  lemma FamiliesDisjoint()
    ensures forall a, g :: IsAddress(a) && IsGroup(g) ==> EndpointKey(a) != GroupKey(g)
  {
    forall a, g | IsAddress(a) && IsGroup(g)
      ensures EndpointKey(a) != GroupKey(g)
    {
      KeyClash(a, g);
    }
  }

  lemma EndpointKeysInjective()
    ensures forall a, b :: EndpointKey(a) == EndpointKey(b) ==> a == b
  {
    forall a, b
      ensures EndpointKey(a) == EndpointKey(b) ==> a == b
    {
      EndpointKeyInjective(a, b);
    }
  }

  lemma GroupKeysInjective()
    ensures forall g, h :: GroupKey(g) == GroupKey(h) ==> g == h
  {
    forall g, h
      ensures GroupKey(g) == GroupKey(h) ==> g == h
    {
      GroupKeyInjective(g, h);
    }
  }

  /** A unid that does not start with a digit, such as a Z-Wave home id, is never a fabric numeral. */
  lemma UnidIsNoNumeral(unid: string)
    requires unid != "" && !IsDigit(unid[0])
    ensures !IsFabricNumeral(unid)
  {
    if IsFabricNumeral(unid) {
      var fabric: nat :| fabric < 256 && unid == Dec(fabric);
      DecValue(fabric);
    }
  }

  // ---- The store -------------------------------------------------------------------

  function Lookup(store: Store, key: string): Option<nat> {
    if key in store then Some(store[key]) else None
  }

  class MatterDataStorage {
    var kvs: Store

    constructor ()
      ensures kvs == map[]
    {
      kvs := map[];
    }

    /** `putOk` is the platform's answer to the Put call. */
    method PersistEndpoint(a: Address, matterEndpoint: Option<nat>, putOk: bool) returns (ok: bool)
      modifies this
      ensures ok == (matterEndpoint.Some? && putOk)
      ensures kvs == if ok then old(kvs)[EndpointKey(a) := matterEndpoint.value] else old(kvs)
      ensures ok ==>
        (a.unid + "-" + Dec(a.endpoint)) in kvs && kvs[a.unid + "-" + Dec(a.endpoint)] == matterEndpoint.value
    {
      if matterEndpoint.None? {
        return false;
      }
      if putOk {
        kvs := kvs[EndpointKey(a) := matterEndpoint.value];
        return true;
      }
      return false;
    }

    method PersistGroup(g: MatterGroup, unifyGroup: Option<nat>, putOk: bool) returns (ok: bool)
      modifies this
      ensures ok == (unifyGroup.Some? && putOk)
      ensures kvs == if ok then old(kvs)[GroupKey(g) := unifyGroup.value] else old(kvs)
      ensures ok ==>
        (Dec(g.fabric) + "-" + Dec(g.group)) in kvs && kvs[Dec(g.fabric) + "-" + Dec(g.group)] == unifyGroup.value
    {
      if unifyGroup.None? {
        return false;
      }
      if putOk {
        kvs := kvs[GroupKey(g) := unifyGroup.value];
        return true;
      }
      return false;
    }

    method GetEndpoint(a: Address) returns (matterEndpoint: Option<nat>)
      ensures matterEndpoint == Lookup(kvs, EndpointKey(a))
    {
      if EndpointKey(a) in kvs {
        return Some(kvs[EndpointKey(a)]);
      }
      return None;
    }

    method GetGroup(g: MatterGroup) returns (unifyGroup: Option<nat>)
      ensures unifyGroup == Lookup(kvs, GroupKey(g))
    {
      if GroupKey(g) in kvs {
        return Some(kvs[GroupKey(g)]);
      }
      return None;
    }

    method RemoveEndpoint(a: Address)
      modifies this
      ensures kvs == old(kvs) - {EndpointKey(a)}
    {
      kvs := kvs - {EndpointKey(a)};
    }

    method RemoveGroup(g: MatterGroup)
      modifies this
      ensures kvs == old(kvs) - {GroupKey(g)}
    {
      kvs := kvs - {GroupKey(g)};
    }
  }
}
