/**
 * The bridged-endpoint lifecycle as a state machine: the bridged table, the ember slots with the
 * allocator's memory, the shared key-value store, and the notifications sent since start-up.
 */
module Lifecycle {
  import opened Text
  import opened DataStorage
  import opened EmberInterface

  datatype Entry = Entry(address: Address, matterEndpoint: nat, index: nat, matterType: nat, reachable: bool)

  datatype Update = NodeAdded | NodeDeleted | NodeStateChanged

  datatype Event = Event(update: Update, entry: Entry)

  /** `entries` is the multimap in its order: by unid, and by insertion where the unid is the same. */
  datatype State = State(entries: seq<Entry>, slots: Slots, last: nat, store: Store, log: seq<Event>)

  datatype Step =
    | AddEndpoint(address: Address, matterType: nat, online: bool, putOk: bool)
    | RemoveNode(unid: string)
    | ChangeState(node: string, reachable: bool)
    | PutGroup(group: MatterGroup, unifyGroup: nat)
    | DeleteGroup(group: MatterGroup)
    | Restart

  // ---- The steps -------------------------------------------------------------------

  /** `erase_mapper_endpoint`: drops the first entry of this unid holding this Matter endpoint. */
  function EraseMapped(entries: seq<Entry>, unid: string, matterEndpoint: nat): seq<Entry> {
    if entries == [] then []
    else if entries[0].address.unid == unid && entries[0].matterEndpoint == matterEndpoint then entries[1..]
    else [entries[0]] + EraseMapped(entries[1..], unid, matterEndpoint)
  }

  /** `std::multimap::insert`: in front of the first entry with a greater unid. */
  function InsertEntry(entries: seq<Entry>, e: Entry): seq<Entry> {
    if entries == [] || Less(e.address.unid, entries[0].address.unid) then [e] + entries
    else [entries[0]] + InsertEntry(entries[1..], e)
  }

  /** `register_dynamic_endpoint`: a slot already holding the id is cleared before the id is set. */
  function Register(slots: Slots, index: nat, id: nat): Slots {
    var current := DynamicIndex(slots, id);
    SetSlot(if current != INVALID then ClearSlot(slots, current) else slots, index, id)
  }

  /** `bridge.index`, a `uint16_t`. */
  function IndexOf(id: nat): nat {
    (id - FIXED_ENDPOINT_COUNT) % 0x1_0000
  }

  function NewEntry(a: Address, id: nat, matterType: nat, online: bool): Entry {
    Entry(a, id, IndexOf(id), matterType, online)
  }

  function Bridge(s: State, a: Address, id: nat, matterType: nat, online: bool): State {
    var entry := NewEntry(a, id, matterType, online);
    s.(entries := InsertEntry(EraseMapped(s.entries, a.unid, id), entry),
       slots := Register(s.slots, entry.index, id),
       log := s.log + [Event(NodeAdded, entry.(reachable := false)), Event(NodeStateChanged, entry)])
  }

  /** The id an announced endpoint gets, and the state with the allocator and the store as they are then. */
  function Chosen(s: State, a: Address, putOk: bool): (nat, State) {
    var key := EndpointKey(a);
    if key in s.store then (s.store[key], s)
    else
      var pick := NextAvailable(s.slots, s.last);
      (pick.id, s.(last := pick.last, store := if putOk then s.store[key := pick.id] else s.store))
  }

  /** One endpoint of `on_unify_node_added`; `putOk` is the store's answer when a new id is persisted. */
  function Add(s: State, a: Address, matterType: nat, online: bool, putOk: bool): State {
    Bridge(Chosen(s, a, putOk).1, a, Chosen(s, a, putOk).0, matterType, online)
  }

  /** The entries `equal_range(unid)` visits. */
  function Of(entries: seq<Entry>, unid: string): seq<Entry> {
    if entries == [] then []
    else (if entries[0].address.unid == unid then [entries[0]] else []) + Of(entries[1..], unid)
  }

  function Without(entries: seq<Entry>, unid: string): seq<Entry> {
    if entries == [] then []
    else (if entries[0].address.unid == unid then [] else [entries[0]]) + Without(entries[1..], unid)
  }

  function WithReachable(e: Entry, unid: string, online: bool): Entry {
    if e.address.unid == unid then e.(reachable := online) else e
  }

  function SetReachable(entries: seq<Entry>, unid: string, online: bool): seq<Entry> {
    if entries == [] then []
    else [WithReachable(entries[0], unid, online)] + SetReachable(entries[1..], unid, online)
  }

  /** The effect of the loop of `on_unify_node_removed` on the slots and on the store. */
  function ClearAll(slots: Slots, es: seq<Entry>): Slots {
    if es == [] then slots else ClearSlot(ClearAll(slots, es[..|es| - 1]), es[|es| - 1].index)
  }

  function ForgetAll(store: Store, es: seq<Entry>): Store {
    if es == [] then store else ForgetAll(store, es[..|es| - 1]) - {EndpointKey(es[|es| - 1].address)}
  }

  function Notify(update: Update, es: seq<Entry>): (events: seq<Event>)
    ensures |events| == |es|
    ensures forall i :: 0 <= i < |es| ==> events[i] == Event(update, es[i])
  {
    if es == [] then [] else [Event(update, es[0])] + Notify(update, es[1..])
  }

  function Remove(s: State, unid: string): State {
    var gone := Of(s.entries, unid);
    s.(entries := Without(s.entries, unid), slots := ClearAll(s.slots, gone),
       store := ForgetAll(s.store, gone), log := s.log + Notify(NodeDeleted, gone))
  }

  function Change(s: State, unid: string, online: bool): State {
    var entries := SetReachable(s.entries, unid, online);
    s.(entries := entries, log := s.log + Notify(NodeStateChanged, Of(entries, unid)))
  }

  /** The process starts over: only the store survives. */
  function Boot(store: Store): State {
    State([], EmptySlots(), FIXED_ENDPOINT_COUNT - 1, store, [])
  }

  function Do(s: State, step: Step): State {
    match step
    case AddEndpoint(a, matterType, online, putOk) => Add(s, a, matterType, online, putOk)
    case RemoveNode(unid) => Remove(s, unid)
    case ChangeState(unid, online) => Change(s, unid, online)
    case PutGroup(g, unifyGroup) => s.(store := s.store[GroupKey(g) := unifyGroup])
    case DeleteGroup(g) => s.(store := s.store - {GroupKey(g)})
    case Restart => Boot(s.store)
  }

  function Run(s: State, steps: seq<Step>): State
    decreases |steps|
  {
    if steps == [] then s else Run(Do(s, steps[0]), steps[1..])
  }

  // ---- The two lookups -------------------------------------------------------------

  function ByAddress(entries: seq<Entry>, unid: string, endpoint: int): Option<Entry> {
    if entries == [] then None
    else if entries[0].address.unid == unid && entries[0].address.endpoint == endpoint then Some(entries[0])
    else ByAddress(entries[1..], unid, endpoint)
  }

  function ByMatterEndpoint(entries: seq<Entry>, matterEndpoint: nat): Option<Entry> {
    if entries == [] then None
    else if entries[0].matterEndpoint == matterEndpoint then Some(entries[0])
    else ByMatterEndpoint(entries[1..], matterEndpoint)
  }

  // ---- What must agree -------------------------------------------------------------

  ghost predicate Distinct(entries: seq<Entry>) {
    forall i, j :: 0 <= i < j < |entries| ==> entries[i].matterEndpoint != entries[j].matterEndpoint
  }

  ghost predicate Holds(entries: seq<Entry>, matterEndpoint: nat) {
    exists e :: e in entries && e.matterEndpoint == matterEndpoint
  }

  ghost predicate IsBridged(entries: seq<Entry>, a: Address) {
    exists e :: e in entries && e.address == a
  }

  /** Slot i is empty or holds id i + FIXED_ENDPOINT_COUNT. */
  ghost predicate Aligned(slots: Slots) {
    && IsTable(slots)
    && forall i :: 0 <= i < |slots| ==> slots[i] == INVALID || slots[i] == i + FIXED_ENDPOINT_COUNT
  }

  ghost predicate Stored(store: Store, a: Address) {
    IsAddress(a) && EndpointKey(a) in store
  }

  /** Persisted ids are dynamic ids, and no two endpoints have the same one. */
  ghost predicate SoundStore(store: Store) {
    && (forall a :: Stored(store, a) ==> InDynamicRange(store[EndpointKey(a)]))
    && (forall a, b :: Stored(store, a) && Stored(store, b) ==>
          store[EndpointKey(a)] == store[EndpointKey(b)] ==> a == b)
  }

  ghost predicate Agrees(e: Entry, slots: Slots, store: Store)
    requires IsTable(slots)
  {
    && IsAddress(e.address)
    && InDynamicRange(e.matterEndpoint)
    && e.index == e.matterEndpoint - FIXED_ENDPOINT_COUNT
    && slots[e.index] == e.matterEndpoint
    && EndpointKey(e.address) in store && store[EndpointKey(e.address)] == e.matterEndpoint
  }

  /** The three stores agree on everything bridged; the store may know endpoints not announced yet. */
  ghost predicate Coherent(s: State) {
    && Aligned(s.slots)
    && FIXED_ENDPOINT_COUNT - 1 <= s.last < MAX_ENDPOINT_COUNT
    && SoundStore(s.store)
    && Distinct(s.entries)
    && (forall e :: e in s.entries ==> Agrees(e, s.slots, s.store))
    && (forall i :: 0 <= i < |s.slots| && s.slots[i] != INVALID ==> Holds(s.entries, s.slots[i]))
  }

  /** ... and nothing is persisted that is not bridged. */
  ghost predicate Complete(s: State) {
    Coherent(s) && forall a :: Stored(s.store, a) ==> IsBridged(s.entries, a)
  }

  // ---- Which steps are sound -------------------------------------------------------

  ghost predicate WellFormed(step: Step) {
    match step
    case AddEndpoint(a, _, _, _) => IsAddress(a)
    case PutGroup(g, _) => IsGroup(g)
    case DeleteGroup(g) => IsGroup(g)
    case _ => true
  }

  function PickedId(s: State): nat {
    NextAvailable(s.slots, s.last).id
  }

  /** Of every persisted endpoint that is not bridged yet, the scan meets a free id before the persisted one. */
  ghost predicate OutOfReach(s: State) {
    forall b :: Stored(s.store, b) && !IsBridged(s.entries, b) ==> FreeBefore(s.slots, s.last, s.store[EndpointKey(b)])
  }

  /** A first announcement must be persisted, find room, and have the ids of absent endpoints out of reach. */
  ghost predicate Admissible(s: State, step: Step) {
    step.AddEndpoint? && EndpointKey(step.address) !in s.store ==> step.putOk && HasRoom(s.slots) && OutOfReach(s)
  }
}
