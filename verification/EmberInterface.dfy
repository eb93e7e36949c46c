/** The table of dynamic endpoints and the allocator that picks the next Matter endpoint id. */
module EmberInterface {

  /** Endpoint 0 (root node) and endpoint 1 (aggregator). */
  const FIXED_ENDPOINT_COUNT: nat := 2
  const DYNAMIC_ENDPOINT_COUNT: nat := 255
  const MAX_ENDPOINT_COUNT: nat := FIXED_ENDPOINT_COUNT + DYNAMIC_ENDPOINT_COUNT

  /** `kInvalidEndpointId` and `kEmberInvalidEndpointIndex`: both 0xFFFF, and the id an empty slot holds. */
  const INVALID: nat := 0xFFFF

  /** Slot i holds the id registered at dynamic index i. */
  type Slots = seq<nat>

  datatype SetResult = NoError | NoMemory | InvalidArgument | EndpointExists

  predicate IsTable(slots: Slots) {
    |slots| == DYNAMIC_ENDPOINT_COUNT
  }

  predicate InDynamicRange(id: nat) {
    FIXED_ENDPOINT_COUNT <= id < MAX_ENDPOINT_COUNT
  }

  function Vacant(n: nat): (slots: Slots)
    ensures |slots| == n && forall i :: 0 <= i < n ==> slots[i] == INVALID
  {
    if n == 0 then [] else Vacant(n - 1) + [INVALID]
  }

  function EmptySlots(): Slots {
    Vacant(DYNAMIC_ENDPOINT_COUNT)
  }

  // ---- The table operations --------------------------------------------------------

  function FirstIndex(slots: Slots, id: nat): nat {
    if slots == [] then 0 else if slots[0] == id then 0 else 1 + FirstIndex(slots[1..], id)
  }

  function DynamicIndex(slots: Slots, id: nat): nat {
    if id == INVALID || id !in slots then INVALID else FirstIndex(slots, id)
  }

  function SetError(slots: Slots, index: nat, id: nat): SetResult {
    if index >= |slots| then NoMemory
    else if id == INVALID then InvalidArgument
    else if id in slots then EndpointExists
    else NoError
  }

  function SetSlot(slots: Slots, index: nat, id: nat): Slots {
    if SetError(slots, index, id) == NoError then slots[index := id] else slots
  }

  function ClearSlot(slots: Slots, index: nat): Slots {
    if index < |slots| then slots[index := INVALID] else slots
  }

  /** What clearing reports: the id that was there, or 0 when there was none. */
  function ClearedId(slots: Slots, index: nat): nat {
    if index < |slots| && slots[index] != INVALID then slots[index] else 0
  }

  lemma {:induction false} FirstIndexIsFirst(slots: Slots, id: nat)
    ensures FirstIndex(slots, id) <= |slots|
    ensures FirstIndex(slots, id) < |slots| <==> id in slots
    ensures id in slots ==> slots[FirstIndex(slots, id)] == id
    ensures forall i :: 0 <= i < FirstIndex(slots, id) ==> slots[i] != id
  {
    if slots != [] && slots[0] != id {
      FirstIndexIsFirst(slots[1..], id);
      assert slots == [slots[0]] + slots[1..];
    }
  }

  // ---- The allocator ---------------------------------------------------------------

  /** The first id at or above `from` that no slot holds. */
  function FirstFree(slots: Slots, from: nat): nat
    decreases MAX_ENDPOINT_COUNT - from
  {
    if from >= MAX_ENDPOINT_COUNT then INVALID
    else if from !in slots then from
    else FirstFree(slots, from + 1)
  }

  lemma {:induction false} FirstFreeIsFirst(slots: Slots, from: nat)
    ensures var id := FirstFree(slots, from);
      if id == INVALID then forall k :: from <= k < MAX_ENDPOINT_COUNT ==> k in slots
      else from <= id < MAX_ENDPOINT_COUNT && id !in slots && forall k :: from <= k < id ==> k in slots
    decreases MAX_ENDPOINT_COUNT - from
  {
    if from < MAX_ENDPOINT_COUNT && from in slots {
      FirstFreeIsFirst(slots, from + 1);
    }
  }

  /** The id handed out, and the allocator's memory afterwards. */
  datatype Pick = Pick(id: nat, last: nat)

  function NextAvailable(slots: Slots, last: nat): Pick {
    var upward := FirstFree(slots, (last + 1) % 0x1_0000);
    if upward != INVALID then Pick(upward, upward)
    else Pick(FirstFree(slots, FIXED_ENDPOINT_COUNT), last)
  }

  /** The invalid id comes out exactly when every dynamic id is taken; any other id is dynamic and untaken. */
  lemma NextAvailableIsFree(slots: Slots, last: nat)
    requires FIXED_ENDPOINT_COUNT - 1 <= last < MAX_ENDPOINT_COUNT
    ensures var p := NextAvailable(slots, last);
      && (p.id == INVALID <==> forall k :: InDynamicRange(k) ==> k in slots)
      && (p.id != INVALID ==> InDynamicRange(p.id) && p.id !in slots)
  {
    FirstFreeIsFirst(slots, last + 1);
    FirstFreeIsFirst(slots, FIXED_ENDPOINT_COUNT);
  }

  /**
   * The memory only moves up, and only to the id handed out; it stays where it was exactly when
   * the upward scan found every id above it taken.
   */
  lemma NextAvailableMemory(slots: Slots, last: nat)
    requires FIXED_ENDPOINT_COUNT - 1 <= last < MAX_ENDPOINT_COUNT
    ensures var p := NextAvailable(slots, last);
      && last <= p.last < MAX_ENDPOINT_COUNT
      && (p.last > last ==> p.id == p.last && forall k :: last < k < p.id ==> k in slots)
      && (p.last == last <==> forall k :: last < k < MAX_ENDPOINT_COUNT ==> k in slots)
  {
    FirstFreeIsFirst(slots, last + 1);
  }

  ghost predicate HasRoom(slots: Slots) {
    exists k :: InDynamicRange(k) && k !in slots
  }

  /** The scan comes to id k before it comes to id v: upwards from its memory first, then from the bottom. */
  predicate Sooner(last: nat, k: nat, v: nat) {
    InDynamicRange(k) && if v > last then last < k < v else k > last || k < v
  }

  /** An id that no slot holds lies before v in the scan. */
  ghost predicate FreeBefore(slots: Slots, last: nat, v: nat) {
    exists k :: k !in slots && Sooner(last, k, v)
  }

  /** The allocator picks a free id exactly when it meets no other free id on its way there. */
  lemma PicksUnlessSooner(slots: Slots, last: nat, v: nat)
    requires FIXED_ENDPOINT_COUNT - 1 <= last < MAX_ENDPOINT_COUNT
    requires InDynamicRange(v) && v !in slots
    ensures NextAvailable(slots, last).id == v <==> !FreeBefore(slots, last, v)
  {
    FirstFreeIsFirst(slots, last + 1);
    FirstFreeIsFirst(slots, FIXED_ENDPOINT_COUNT);
    var id := NextAvailable(slots, last).id;
    assert id != v ==> id !in slots && Sooner(last, id, v);
  }

  class UnifyEmberInterface {
    const slots: array<nat>
    var last: nat

    constructor ()
      ensures fresh(slots) && slots.Length == DYNAMIC_ENDPOINT_COUNT && slots[..] == EmptySlots()
      ensures last == FIXED_ENDPOINT_COUNT - 1
    {
      slots := new nat[DYNAMIC_ENDPOINT_COUNT](i => INVALID);
      last := FIXED_ENDPOINT_COUNT - 1;
    }

    method GetDynamicIndex(id: nat) returns (index: nat)
      requires slots.Length == DYNAMIC_ENDPOINT_COUNT
      ensures index == DynamicIndex(slots[..], id)
      ensures index == INVALID || (index < slots.Length && slots[index] == id)
      ensures index == INVALID <==> id == INVALID || id !in slots[..]
    {
      FirstIndexIsFirst(slots[..], id);
      if id == INVALID {
        return INVALID;
      }
      for i := 0 to slots.Length
        invariant forall k :: 0 <= k < i ==> slots[k] != id
      {
        if slots[i] == id {
          assert id == slots[..][i];
          return i;
        }
      }
      return INVALID;
    }

    method SetDynamicEndpoint(index: nat, id: nat) returns (error: SetResult)
      requires slots.Length == DYNAMIC_ENDPOINT_COUNT
      modifies slots
      ensures error == SetError(old(slots[..]), index, id)
      ensures error == NoMemory <==> index >= slots.Length
      ensures error == InvalidArgument <==> index < slots.Length && id == 0xFFFF
      ensures error == EndpointExists <==> index < slots.Length && id != 0xFFFF && id in old(slots[..])
      ensures slots[..] == if error == NoError then old(slots[..])[index := id] else old(slots[..])
      ensures slots[..] == SetSlot(old(slots[..]), index, id)
    {
      if index >= slots.Length {
        return NoMemory;
      }
      if id == INVALID {
        return InvalidArgument;
      }
      for i := 0 to slots.Length
        invariant forall k :: 0 <= k < i ==> slots[k] != id
      {
        if slots[i] == id {
          assert id == slots[..][i];
          return EndpointExists;
        }
      }
      slots[index] := id;
      return NoError;
    }

    method ClearDynamicEndpoint(index: nat) returns (id: nat)
      requires slots.Length == DYNAMIC_ENDPOINT_COUNT
      modifies slots
      ensures id == ClearedId(old(slots[..]), index)
      ensures id == if index < slots.Length && old(slots[..])[index] != 0xFFFF then old(slots[..])[index] else 0
      ensures slots[..] == if index < slots.Length then old(slots[..])[index := 0xFFFF] else old(slots[..])
      ensures slots[..] == ClearSlot(old(slots[..]), index)
    {
      id := 0;
      if index < slots.Length && slots[index] != INVALID {
        id := slots[index];
        slots[index] := INVALID;
      }
      assert index < slots.Length ==> slots[..] == old(slots[..])[index := INVALID];
    }

    method GetNextDynamicAvailableEndpointIndex() returns (id: nat)
      requires slots.Length == DYNAMIC_ENDPOINT_COUNT
      modifies this
      ensures id == NextAvailable(slots[..], old(last)).id
      ensures last == NextAvailable(slots[..], old(last)).last
    {
      var endpoint := (last + 1) % 0x1_0000;
      while endpoint < MAX_ENDPOINT_COUNT
        invariant last == old(last)
        invariant FirstFree(slots[..], endpoint) == FirstFree(slots[..], (last + 1) % 0x1_0000)
      {
        var index := GetDynamicIndex(endpoint);
        if index == INVALID && endpoint < MAX_ENDPOINT_COUNT {
          last := endpoint;
          return endpoint;
        }
        endpoint := endpoint + 1;
      }
      var i := FIXED_ENDPOINT_COUNT;
      while i < MAX_ENDPOINT_COUNT
        invariant last == old(last)
        invariant FirstFree(slots[..], i) == FirstFree(slots[..], FIXED_ENDPOINT_COUNT)
      {
        var index := GetDynamicIndex(i);
        if index == INVALID {
          return i;
        }
        i := i + 1;
      }
      return INVALID;
    }
  }
}
