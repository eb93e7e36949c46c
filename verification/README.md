# Verification of the Unify Matter Bridge

The bridge shows Unify (Z-Wave) nodes as Matter endpoints. This Dafny project models its cores and proves what
they are for. Each module stands for one source file or one theme:

| module | about |
|---|---|
| `Text`, `Topics` | decimal numerals, `std::stoi`, printing MQTT topics and reading them back with `std::regex_search` |
| `DataStorage`, `EmberInterface` | the shared key-value store; the dynamic endpoint table with its id allocator |
| `Lifecycle`, `LifecycleProofs`, `LifecycleTheorems`, `LifecycleEvents`, `TableOrder` | bridged table, slots and store as one state machine: steps, invariant, runs, restarts, the order of the table |
| `NodeStateMonitor` | the event handlers, imperative, each proved to be a run of those steps |
| `Notifications` | what a listener rebuilds from the notifications, and the subscriptions that follow |
| `AttributeTranslator`, `CommandTranslator`, `GroupTranslator` | report routing, the pending-command table, the group allocator and group commands |
| `DeviceTypeSelection`, `SelectionTheorems`, `ClusterInteractor` | building the cluster list and choosing a device type from it |
| `ClusterEmulator`, `AttributeStateCache`, `BitmapCodec` | dispatch index, typed cache, generated bitmap converters |

Handlers, allocators and loops are methods and classes, proved against pure functions of the old state; the
theorems are lemmas about those functions. What each function computes is also stated field by field and text by text,
without it: `AnnouncementMeans`, `StateChangeMeans`, `PublishedMeans`, `AddGroupMeans`, `MatterTypeIsCheapest` and their
like.

Central definitions: `Lifecycle.Coherent` says that every bridged entry has its own id, sits in the slot of that id
and is persisted at that id, and that no slot is taken by anything else; `Lifecycle.Complete` adds that nothing else
is persisted. `Lifecycle.Admissible` and `LifecycleTheorems.Affordable` are what an announcement needs, and `GroupTranslator.Fresh`
what a group allocation needs, in terms of the slots, the reported ids and the stored ids that can be looked up
beforehand. An address's unid is not the decimal numeral of a fabric index
(`DataStorage.IsAddress`): `DataStorage.KeyClash` shows that this is exactly when the two key families collide.

Where the code differs from what it seems meant to do, the code is modelled and the difference is a lemma:

- after a restart a new endpoint can take a persisted id (`RestartOrderMatters`), since the allocator reads only the slots;
  `PickIsNobodys` and `RunCoherent` say exactly when it does;
- group ids are not marked as used when allocated (`UnreportedGroupsShare`); `RunSeparate` and
  `RunSeparateWithoutRestart` say exactly when two groups come to share one;
- the score is kept in a byte. The generated tables
  (linux/zap-generated/device_spec_compliance/device-type-mapper/matter_device_types_clusters_list.inc:32-137, at most ten
  clusters a type, five of them mandatory) stay far inside the bounds of `HeadIsExactlyBest`; only a larger generated table
  would see it wrap (`WrappedScoreLoses`);
- the handler timeout is eleven seconds, not ten (`ElevenSeconds`), and a handled response does not erase its entry,
  so a second command on that topic is still refused until then (`HandledMeans`, `AcceptedApart`);
- ignoring an endpoint is decided by the first cluster of an unordered map (`IgnoringDependsOnOrder`);
- writing a global attribute that no emulator declares throws although it is reported as emulated (`GlobalWriteThrows`);
- a field whose mask has several bits does not survive encoding (`DecodeEncode`).

A comment at linux/src/matter_wrappers/unify_ember_interface.hpp:38-39 and the code disagree on the range of dynamic
ids; the code, which stops at the maximum endpoint count, is followed.

## Model

| member | source | states |
|---|---|---|
| `LifecycleProofs.RunCoherent` | linux/src/matter_node_state_monitor/matter_node_state_monitor.cpp:44-195 | over every run of announcements, removals, state changes, group writes and restarts, table, slots and store agree after each step if and only if every first announcement was persisted, found a free id, and came when the scan meets a free id before that of any persisted endpoint not bridged yet |
| `LifecycleProofs.StepCoherent` | linux/src/matter_node_state_monitor/matter_node_state_monitor.cpp:44-144 | one step from agreeing stores: they agree afterwards if and only if it is no first announcement, or is persisted, finds a free id, and no absent endpoint's id is next in the scan |
| `LifecycleProofs.InadmissibleBreaks` | linux/src/matter_node_state_monitor/matter_node_state_monitor.cpp:97-103 | an announcement that is not persisted, finds no free id, or comes when an absent endpoint's id is next in the scan makes the stores disagree at once |
| `LifecycleProofs.AddKeeps` | linux/src/matter_node_state_monitor/matter_node_state_monitor.cpp:88-118 | an admissible announcement bridges its endpoint at its persisted id and leaves every other entry and every other persisted endpoint as it was |
| `LifecycleProofs.RemoveKeeps` | linux/src/matter_node_state_monitor/matter_node_state_monitor.cpp:122-134 | removal keeps agreement and drops exactly the entries of the unid |
| `LifecycleProofs.RemoveStore` | linux/src/matter_node_state_monitor/matter_node_state_monitor.cpp:122-134 | removal forgets exactly the keys of the bridged endpoints of the unid; group mappings and all values left are untouched |
| `LifecycleProofs.RemoveSlots` | linux/src/matter_node_state_monitor/matter_node_state_monitor.cpp:127-131 | removal leaves the slots of other nodes taken and every other slot empty |
| `LifecycleProofs.ChangeKeeps` | linux/src/matter_node_state_monitor/matter_node_state_monitor.cpp:136-144 | a state change keeps agreement and the set of bridged endpoints |
| `LifecycleProofs.GroupWriteKeeps` | linux/src/matter_data_storage.cpp:47-62 | writing or deleting a group mapping never disturbs an endpoint mapping in the shared store |
| `LifecycleProofs.EraseMappedSpec` | linux/src/matter_node_state_monitor/matter_node_state_monitor.cpp:184-195 | erasing by Matter endpoint looks within one unid only and takes out exactly the entry that has it |
| `LifecycleProofs.RegisterSpec` | linux/src/matter_node_state_monitor/matter_node_state_monitor.cpp:222-251 | clearing the slot that already holds the id before setting it makes registration write exactly one slot, re-announcement included |
| `LifecycleProofs.PickIsNobodys` | linux/src/matter_wrappers/unify_ember_interface.hpp:43-71 | the id picked is held by nobody in the store if and only if, for each persisted endpoint not bridged, some free id comes sooner in the scan |
| `LifecycleTheorems.RunComplete` | linux/src/matter_node_state_monitor/matter_node_state_monitor.cpp:44-195 | without a restart, table, slots and store hold exactly the same endpoints at the same ids after each step if and only if every first announcement was persisted and found a free slot |
| `LifecycleTheorems.AffordableIsAdmissible` | linux/src/matter_wrappers/unify_ember_interface.hpp:43-71 | when nothing is persisted but what is bridged, a put that succeeds and a free slot are all a first announcement needs |
| `LifecycleTheorems.ThreeStoresAgree` | linux/src/matter_node_state_monitor/matter_node_state_monitor.cpp:88-118 | the persisted id of an endpoint is the id of its entry, and slot i is taken exactly by the entry with id i + 2; both directions |
| `LifecycleEvents.AnnouncementMeans` | linux/src/matter_node_state_monitor/matter_node_state_monitor.cpp:85-118 | after an admissible announcement the table holds exactly one entry for the endpoint, with its persisted id, its device type and its reachability, beside all others as they were; the listeners heard that it was added, unreachable, and then its state |
| `LifecycleEvents.StateChangeMeans` | linux/src/matter_node_state_monitor/matter_node_state_monitor.cpp:136-144 | a state change gives exactly the entries of the unid the reachability it was given, and tells of exactly those, once each, as they then are |
| `LifecycleEvents.RemovalMeans` | linux/src/matter_node_state_monitor/matter_node_state_monitor.cpp:122-134 | a removal tells of exactly the entries of the unid, once each, and takes exactly those away |
| `LifecycleTheorems.LookupsAreInverse` | linux/src/matter_node_state_monitor/matter_node_state_monitor.cpp:146-169 | the two lookup functions find the same entry from either of its two names, and only entries of the table |
| `LifecycleTheorems.RemovalUndoesAddition` | linux/src/matter_node_state_monitor/matter_node_state_monitor.cpp:88-134 | announcing the first endpoint of a node, unknown to the store, and removing the node restores table, slots and store; only the allocator has moved on |
| `LifecycleTheorems.RestartRecovers` | linux/src/matter_node_state_monitor/matter_node_state_monitor.cpp:88-114 | from any sound store, announcing persisted endpoints in any order and any number of times, with state changes, group writes, removals of unknown nodes and further restarts in between: bridged are exactly those announced since the last restart, each at its persisted id; the stores agree, and in full if and only if none is missing |
| `LifecycleTheorems.RestartRestores` | linux/src/matter_node_state_monitor/matter_node_state_monitor.cpp:88-114 | so every endpoint bridged before and announced again is bridged as before; and the endpoint-to-id map is exactly the earlier one when nothing was missing before |
| `LifecycleTheorems.RestartKeepsIds` | linux/src/matter_node_state_monitor/matter_node_state_monitor.cpp:88-114 | with admissible newcomers and removals of other nodes as well: a persisted endpoint is bridged, at its persisted id, if and only if it was announced since the last restart |
| `LifecycleTheorems.KnownIsAdmissible` | linux/src/matter_node_state_monitor/matter_node_state_monitor.cpp:88-95 | announcing persisted endpoints is always admissible after a restart |
| `LifecycleTheorems.RestartOrderMatters` | linux/src/matter_node_state_monitor/matter_node_state_monitor.cpp:97-111 | why the order matters: a new endpoint announced first after a restart takes an id persisted for another; two entries then share it, and the lookup gives the one with the smaller unid |
| `LifecycleTheorems.NoEarlyReuse` | linux/src/matter_wrappers/unify_ember_interface.hpp:43-71 | over any run without a restart, releases included, later ids from the upward scan are larger, until every id above the allocator's memory is taken |
| `NodeStateMonitor.MatterNodeStateMonitor.OnUnifyNodeAdded` | linux/src/matter_node_state_monitor/matter_node_state_monitor.cpp:44-120 | the handler's loop is exactly the run of announcement steps of the endpoints it bridges, in order |
| `NodeStateMonitor.MatterNodeStateMonitor.OnEndpointAdded` | linux/src/matter_node_state_monitor/matter_node_state_monitor.cpp:46-119 | one endpoint: skipped, or announced with the device type decided for it |
| `NodeStateMonitor.MatterNodeStateMonitor.BridgeEndpoint` | linux/src/matter_node_state_monitor/matter_node_state_monitor.cpp:88-118 | persisted id if there is one, else a new id persisted if the store takes it; erase, insert, register, notify twice |
| `NodeStateMonitor.MatterNodeStateMonitor.ChooseMatterEndpoint` | linux/src/matter_node_state_monitor/matter_node_state_monitor.cpp:88-103 | the id chosen and what choosing it does to allocator and store |
| `NodeStateMonitor.MatterNodeStateMonitor.BridgeAt` | linux/src/matter_node_state_monitor/matter_node_state_monitor.cpp:105-118 | table, slots and notifications after an endpoint is bridged at an id |
| `NodeStateMonitor.MatterNodeStateMonitor.RegisterDynamicEndpoint` | linux/src/matter_node_state_monitor/matter_node_state_monitor.cpp:222-251 | the slots after registering an entry that may already hold a slot |
| `NodeStateMonitor.MatterNodeStateMonitor.EraseMapperEndpoint` | linux/src/matter_node_state_monitor/matter_node_state_monitor.cpp:184-195 | the iterator loop drops the first entry of the unid with the Matter endpoint |
| `NodeStateMonitor.MatterNodeStateMonitor.OnUnifyNodeRemoved` | linux/src/matter_node_state_monitor/matter_node_state_monitor.cpp:122-134 | the loops clear the slots, forget the keys, notify, and erase the range of the unid |
| `NodeStateMonitor.MatterNodeStateMonitor.ReleaseEndpoint` | linux/src/matter_node_state_monitor/matter_node_state_monitor.cpp:127-131 | the loop body of the removal: slot, store and notification of one entry |
| `NodeStateMonitor.MatterNodeStateMonitor.EqualRange` | linux/src/matter_node_state_monitor/matter_node_state_monitor.cpp:124 | the range visited holds exactly the entries of the unid |
| `NodeStateMonitor.MatterNodeStateMonitor.OnUnifyNodeStateChanged` | linux/src/matter_node_state_monitor/matter_node_state_monitor.cpp:136-144 | sets reachability of every entry of the unid and notifies each, with the new value |
| `NodeStateMonitor.MatterNodeStateMonitor.BridgedEndpoint` | linux/src/matter_node_state_monitor/matter_node_state_monitor.cpp:146-157 | lookup by unid and endpoint |
| `NodeStateMonitor.MatterNodeStateMonitor.BridgedMatterEndpoint` | linux/src/matter_node_state_monitor/matter_node_state_monitor.cpp:159-169 | lookup by Matter endpoint |
| `TableOrder.LookupTakesSmallestUnid` | linux/src/matter_node_state_monitor/matter_node_state_monitor.cpp:159-169 | after any run at all, the lookup by Matter endpoint finds an entry exactly when one has the id, and of several one with the smallest unid |
| `TableOrder.StepKeepsOrder` | linux/src/matter_node_state_monitor/matter_node_state_monitor.cpp:112-142 | every step keeps the table in the order of the multimap |
| `NodeStateMonitor.MatterNodeStateMonitor.DecideMatterType` | linux/src/matter_node_state_monitor/matter_node_state_monitor.cpp:48-81 | whether an endpoint is bridged, and as which device type |
| `NodeStateMonitor.MatterNodeStateMonitor.CountKnownClusters` | linux/src/matter_node_state_monitor/matter_node_state_monitor.cpp:58-69 | the `uint8_t` count of clusters with a known name |
| `NodeStateMonitor.NodeAnnounced` | linux/src/matter_node_state_monitor/matter_node_state_monitor.cpp:44-120 | an announced node: each endpoint decided to be bridged is recorded with its decided type, the node's reachability and its persisted id, and every other endpoint's entry stays as it was |
| `NodeStateMonitor.LastStep` | linux/src/matter_node_state_monitor/matter_node_state_monitor.cpp:46-119 | the step of each bridged endpoint carries the unid, its number, its decided type, the node's state and the store's answer |
| `NodeStateMonitor.BridgedWhen` | linux/src/matter_node_state_monitor/matter_node_state_monitor.cpp:51-81 | an endpoint of at most 255 clusters is left out exactly when it is only Groups or NameAndLocation by its first cluster, has no cluster with attributes and a known name, or no device type conforms |
| `NodeStateMonitor.StepsOfNode` | linux/src/matter_node_state_monitor/matter_node_state_monitor.cpp:44-120 | an added node with proper unid and endpoint numbers is a run of well-formed steps without restart, to which the run theorems apply |
| `NodeStateMonitor.IgnoringDependsOnOrder` | linux/src/matter_node_state_monitor/matter_node_state_monitor.cpp:51 | whether an endpoint is ignored is the same for every order of the map if and only if the endpoint does not have two clusters of which just one is Groups or NameAndLocation |
| `NodeStateMonitor.BridgeableIgnoresOrder` | linux/src/matter_node_state_monitor/matter_node_state_monitor.cpp:51-81 | outside that case the decision and the device type do not depend on the order of the map |
| `EmberInterface.NextAvailableIsFree` | linux/src/matter_wrappers/unify_ember_interface.hpp:43-71 | the invalid id comes out exactly when every dynamic id is taken; any other id is dynamic and untaken |
| `EmberInterface.PicksUnlessSooner` | linux/src/matter_wrappers/unify_ember_interface.hpp:43-71 | a free id is picked if and only if no free id comes sooner in the scan: upwards from the memory, then from the bottom |
| `EmberInterface.NextAvailableMemory` | linux/src/matter_wrappers/unify_ember_interface.hpp:25-56 | the memory never falls, moves only to the id handed out, passes over taken ids only, and stays exactly when nothing above it is free |
| `EmberInterface.UnifyEmberInterface.GetNextDynamicAvailableEndpointIndex` | linux/src/matter_wrappers/unify_ember_interface.hpp:43-71 | both scan loops: first free id above the memory, else first free id from the bottom; terminates |
| `EmberInterface.UnifyEmberInterface.GetDynamicIndex` | linux/src/matter_wrappers/unify_ember_interface.hpp:75 | finds the slot of an id, or the invalid index exactly when no slot has it |
| `EmberInterface.UnifyEmberInterface.SetDynamicEndpoint` | linux/src/matter_wrappers/unify_ember_interface.hpp:76-83 | error case and new table of setting a slot |
| `EmberInterface.UnifyEmberInterface.ClearDynamicEndpoint` | linux/src/matter_wrappers/unify_ember_interface.hpp:84-88 | id reported and new table of clearing a slot |
| `DataStorage.KeyClash` | linux/src/matter_data_storage.cpp:37-55 | an endpoint key equals a group key if and only if the unid is the numeral of the fabric index and the endpoint number is the group id |
| `DataStorage.EndpointKeyInjective` | linux/src/matter_data_storage.cpp:37 | distinct endpoints have distinct keys, dashes in unids included |
| `DataStorage.GroupKeyInjective` | linux/src/matter_data_storage.cpp:55 | distinct groups have distinct keys |
| `DataStorage.FamiliesDisjoint` | linux/src/matter_data_storage.cpp:67-81 | unless a unid is a fabric numeral the two key families never meet |
| `DataStorage.UnidIsNoNumeral` | linux/src/matter_data_storage.cpp:37 | unids that do not start with a digit are never fabric numerals |
| `DataStorage.MatterDataStorage.PersistEndpoint` | linux/src/matter_data_storage.cpp:30-44 | writes exactly its own key, and nothing when there is no id or the store refuses |
| `DataStorage.MatterDataStorage.PersistGroup` | linux/src/matter_data_storage.cpp:47-62 | writes exactly its own key, and nothing when there is no id or the store refuses |
| `DataStorage.MatterDataStorage.GetEndpoint` | linux/src/matter_data_storage.cpp:65-75 | the value at the key, or nothing |
| `DataStorage.MatterDataStorage.GetGroup` | linux/src/matter_data_storage.cpp:78-89 | the value at the key, or nothing |
| `DataStorage.MatterDataStorage.RemoveEndpoint` | linux/src/matter_data_storage.cpp:92-97 | deletes exactly its own key |
| `DataStorage.MatterDataStorage.RemoveGroup` | linux/src/matter_data_storage.cpp:100-106 | deletes exactly its own key |
| `Notifications.LogMirrorsTable` | linux/src/matter_node_state_monitor/matter_node_state_monitor.cpp:112-143 | after every admissible run since start-up, replaying the notifications gives exactly the bridged endpoints with their ids and reachability |
| `Notifications.SubscriptionsMatchTable` | linux/src/cluster_translator/attribute_translator_interface.hpp:151-168 | a translator that heard every notification is subscribed to exactly one topic per bridged endpoint and cluster name, re-announcements included |
| `Notifications.Translator.UpdateSubscription` | linux/src/cluster_translator/attribute_translator_interface.hpp:151-168 | one notification adds or takes away exactly the topics of its endpoint |
| `Notifications.Translator.Listen` | linux/src/cluster_translator/attribute_translator_interface.hpp:151-168 | after any notifications the subscriptions are exactly the topics of the endpoints replayed |
| `Notifications.SubscriptionGetsReports` | linux/src/cluster_translator/attribute_translator_interface.hpp:156-157 | by MQTT's reading of its wildcard, a subscription gets exactly the reports, or responses, of its endpoint and cluster |
| `Notifications.FiltersApart` | linux/src/cluster_translator/attribute_translator_interface.hpp:156-157 | two endpoints never share a subscription topic, so unsubscribing one leaves the other alone |
| `Topics.TopicRoundTrip` | linux/src/cluster_translator/attribute_translator_interface.hpp:88-101 | for any such pattern, printing slash-free parts and searching the topic gives the same parts back |
| `Topics.RenderInjective` | linux/src/cluster_translator/attribute_translator_interface.hpp:156-157 | different parts print different topics |
| `Topics.SearchIsLeftmost` | linux/src/cluster_translator/attribute_translator_interface.hpp:88-91 | a search reports the leftmost place that fits, and fails only if none does |
| `Topics.SearchFindsPrinted` | linux/src/cluster_translator/attribute_translator_interface.hpp:88-101 | whatever is found was printed from the groups reported |
| `Topics.MatchPrinted` | linux/src/cluster_translator/attribute_translator_interface.hpp:88-101 | a printed topic matches with its parts, whatever follows it |
| `Topics.MatchIsPrinted` | linux/src/cluster_translator/attribute_translator_interface.hpp:88-101 | converse: every match is a printed topic with slash-free parts |
| `Topics.ReportedRoundTrip` | linux/src/cluster_translator/attribute_translator_interface.hpp:88-101 | reading a report topic gives back unid, endpoint numeral, cluster and attribute |
| `Topics.ReportedInjective` | linux/src/cluster_translator/attribute_translator_interface.hpp:156-157 | no two endpoints, clusters or attributes share a report topic |
| `Topics.ResponseRoundTrip` | linux/src/cluster_translator/command_translator_interface.hpp:193-210 | reading a response topic gives back unid, endpoint numeral, cluster and response |
| `Topics.ResponseInjective` | linux/src/cluster_translator/command_translator_interface.hpp:93-94 | no two endpoints, clusters or responses share a pending-table key |
| `Topics.NodeListRoundTrip` | linux/src/cluster_translator/group_translator.cpp:73-84 | reading a by-group topic gives back the group numeral and the protocol |
| `Text.ParseIntOfDec` | linux/src/cluster_translator/attribute_translator_interface.hpp:106 | `std::stoi` undoes `std::to_string` |
| `Text.ParseIntReads` | linux/src/cluster_translator/attribute_translator_interface.hpp:106 | what `std::stoi` makes of every text: white space, sign, digits, rest, and when it refuses |
| `AttributeTranslator.OnMqttMessage` | linux/src/cluster_translator/attribute_translator_interface.hpp:86-149 | the callback takes the branch of the routing function, exceptions of `std::stoi` included |
| `AttributeTranslator.ReportReachesItsEndpoint` | linux/src/cluster_translator/attribute_translator_interface.hpp:101-128 | a report for a bridged endpoint is delivered to exactly that Matter endpoint; one for any other endpoint is dropped |
| `AttributeTranslator.DeliveryIsAddressed` | linux/src/cluster_translator/attribute_translator_interface.hpp:88-113 | whatever the topic, delivery only goes to a bridged endpoint, with a payload, and the topic spells out its unid, number, cluster and attribute |
| `CommandTranslator.AcceptedApart` | linux/src/cluster_translator/command_translator_interface.hpp:78-156 | over every run with a clock that never falls, two commands accepted on one response topic are at least eleven seconds apart, whatever responses arrive in between |
| `CommandTranslator.ResponseFindsItsCommand` | linux/src/cluster_translator/command_translator_interface.hpp:93-155 | over every run with a clock that never falls, for eleven seconds after a command was accepted a response on its topic is handled for its endpoint, whatever came in between |
| `CommandTranslator.NextResponse` | linux/src/cluster_translator/command_translator_interface.hpp:93-155 | with no call in between the response is handled before eleven seconds and expires from then on |
| `CommandTranslator.PublishedMeans` | linux/src/cluster_translator/command_translator_interface.hpp:67-157 | the topic and the text of every message published: the node's endpoint, or the Unify group stored for the Matter group, then cluster and command; the payload or an empty object; and when none is published |
| `CommandTranslator.HandledIsAddressed` | linux/src/cluster_translator/command_translator_interface.hpp:193-234 | a handled response has a payload, and its topic spells out the endpoint, the cluster and the response it is handled as |
| `CommandTranslator.HandledMeans` | linux/src/cluster_translator/command_translator_interface.hpp:220-234 | a response is handled only through an unexpired entry for exactly its topic, which stays; an expired entry is erased, nothing else changes |
| `CommandTranslator.SendMeans` | linux/src/cluster_translator/command_translator_interface.hpp:78-156 | busy exactly while an unexpired entry waits on the topic, then nothing is published and no live entry changes; an entry is inserted exactly when a message is published |
| `CommandTranslator.ElevenSeconds` | linux/src/cluster_translator/command_translator_interface.hpp:286-297 | truncation to seconds and `> 10` make the timeout eleven seconds |
| `CommandTranslator.CommandTranslatorInterface.ClearTimedOut` | linux/src/cluster_translator/command_translator_interface.hpp:82-91 | the iterator loop erases exactly the expired entries |
| `CommandTranslator.CommandTranslatorInterface.SendUnifyCommand` | linux/src/cluster_translator/command_translator_interface.hpp:67-157 | the pending table, the messages published and the status of one command |
| `CommandTranslator.CommandTranslatorInterface.OnMqttMessage` | linux/src/cluster_translator/command_translator_interface.hpp:191-256 | the pending table and the outcome of one response |
| `GroupTranslator.RunSeparate` | linux/src/cluster_translator/group_command_translator.cpp:54-181 | over every run of group commands, reports, endpoint writes and restarts, no two Matter groups share a Unify group if and only if at each allocation no other group's id was unreported and next in line, with every id from the allocator's position to it in use |
| `GroupTranslator.AddGroupMeans` | linux/src/cluster_translator/group_command_translator.cpp:65-167 | adding a known group tells Unify exactly when it is mapped; adding an unknown one maps it to the id next in line and tells Unify exactly when there is one and the store takes it; nothing else changes |
| `GroupTranslator.RemoveGroupMeans` | linux/src/cluster_translator/group_command_translator.cpp:101-113 | removing a group drops exactly its mapping and tells Unify the mapped id, exactly when there was one |
| `GroupTranslator.OtherCommandsMean` | linux/src/cluster_translator/group_command_translator.cpp:116-124 | removing all groups always tells Unify; an undecodable request does nothing |
| `GroupTranslator.ReportMeans` | linux/src/cluster_translator/group_translator.cpp:66-86 | a by-group topic marks its group and changes nothing else |
| `GroupTranslator.EnvironmentMeans` | linux/src/cluster_translator/group_translator.cpp:29-40 | endpoint writes leave every group mapping alone; a restart forgets the marks and keeps the mappings |
| `GroupTranslator.RunSeparateWithoutRestart` | linux/src/cluster_translator/group_translator.cpp:42-86 | without a restart: if and only if each allocation comes when the id the allocator stands at has been reported or is held by no other group |
| `GroupTranslator.PendingKept` | linux/src/cluster_translator/group_translator.cpp:42-86 | every step but a restart keeps that only the id the allocator stands at can be held and unreported |
| `GroupTranslator.ReportedRunSeparate` | linux/src/cluster_translator/group_translator.cpp:42-86 | so it is when each allocation waits until every persisted id has been reported |
| `GroupTranslator.UnreportedGroupsShare` | linux/src/cluster_translator/group_translator.cpp:42-54 | without the report in between, two groups added one after the other get the same Unify group |
| `GroupTranslator.StepSeparate` | linux/src/cluster_translator/group_command_translator.cpp:54-167 | one step keeps groups separate if and only if, where it allocates and persists, no other group's id is unreported and next in line |
| `GroupTranslator.ScanSpec` | linux/src/cluster_translator/group_translator.cpp:42-51 | the id found is not in use and every id passed over is, through the wrap from 65535 to 0; failure means all ids from the start to 65534 are in use; terminates from every start |
| `GroupTranslator.RemoveAllIsExact` | linux/src/cluster_translator/group_command_translator.cpp:36-52 | removing all groups removes exactly the listed groups of the fabric, no other group and no endpoint mapping |
| `GroupTranslator.ScanTakesNextInLine` | linux/src/cluster_translator/group_translator.cpp:42-51 | an id is allocated if and only if it is unused and every id from the scan's start to it is used, the wrap included |
| `GroupTranslator.ReportNamesItsGroup` | linux/src/cluster_translator/group_translator.cpp:73-85 | a by-group topic marks exactly the group it names |
| `GroupTranslator.CommandNamesTheMapping` | linux/src/cluster_translator/group_command_translator.cpp:89-113 | the Unify group in an outgoing command is the mapping's: after adding, before removing |
| `GroupTranslator.GroupTranslator.GetUnifyGroup` | linux/src/cluster_translator/group_translator.cpp:29-40 | the persisted mapping, or nothing |
| `GroupTranslator.GroupTranslator.AddMatterGroup` | linux/src/cluster_translator/group_translator.cpp:42-54 | the scan loop and what persisting the result changes |
| `GroupTranslator.GroupTranslator.RemoveMatterGroup` | linux/src/cluster_translator/group_translator.cpp:56-64 | drops the mapping of one group |
| `GroupTranslator.GroupTranslator.RegisterUnifyGroup` | linux/src/cluster_translator/group_translator.cpp:66-69 | marks one id as used |
| `GroupTranslator.GroupTranslator.OnMqttMessage` | linux/src/cluster_translator/group_translator.cpp:71-86 | marks the id of a by-group topic, throws exactly on a numeral `std::stoi` refuses |
| `GroupTranslator.GroupClusterCommandHandler.RemoveAllGroups` | linux/src/cluster_translator/group_command_translator.cpp:36-52 | the iterator loop over the listed groups |
| `GroupTranslator.GroupClusterCommandHandler.InvokeCommand` | linux/src/cluster_translator/group_command_translator.cpp:54-181 | state and outgoing command of each group command branch |
| `SelectionTheorems.SelectionResult` | linux/src/device_type_mapper/matter_device_type_selection.cpp:333-351 | the list is the device types of exactly the running minima, latest first; scores never fall front to back; the head has the least score and is the last to have it; empty only without candidates |
| `SelectionTheorems.CheapestTypeFirst` | linux/src/device_type_mapper/matter_device_type_selection.cpp:322-353 | for small inputs the first type returned is a conforming one of least cost: its clusters that are not there and those there that it does not know, less the required ones it matches; of several one that misses most |
| `SelectionTheorems.NumericalScoreIs` | linux/src/device_type_mapper/matter_device_type_selection.cpp:341-344 | the byte is 20 plus misses plus extras less required matches, up to a multiple of 256 |
| `SelectionTheorems.SortedByKey` | linux/src/device_type_mapper/matter_device_type_selection.cpp:289-317 | in the sorted list misses never fall; among equal misses required matches never rise; among equal ones extras never fall |
| `SelectionTheorems.RequiredAreFirst` | linux/src/device_type_mapper/matter_device_type_selection.cpp:34-65 | a cluster counts as required exactly when its first listing in the type is mandatory |
| `SelectionTheorems.StrictInFull` | linux/src/device_type_mapper/matter_device_type_selection.cpp:92-199 | what one mandatory cluster asks, in terms of the tables, the attribute list and the first eight command words |
| `SelectionTheorems.LooseMeansKnown` | linux/src/device_type_mapper/matter_device_type_selection.cpp:209-220 | without strict mapping a type conforms exactly when the names of its mandatory clusters are known |
| `SelectionTheorems.ScoresAreCardinalities` | linux/src/device_type_mapper/matter_device_type_selection.cpp:279-287 | no counter wraps and no difference underflows: extra, missed and required are sizes of set differences and intersections |
| `SelectionTheorems.MatchesAreIntersection` | linux/src/device_type_mapper/matter_device_type_selection.cpp:67-78 | for a duplicate-free list the match count is the size of the intersection |
| `SelectionTheorems.ChoiceIgnoresOrder` | linux/src/device_type_mapper/matter_device_type_selection.cpp:67-90 | permuting the input list changes neither candidates nor scores nor the returned list, in both modes |
| `SelectionTheorems.StrictMeansProvided` | linux/src/device_type_mapper/matter_device_type_selection.cpp:201-259 | strict conformance holds if and only if every mandatory cluster is present with its attributes, additional attributes and scanned commands |
| `SelectionTheorems.StrictMatchesAllMandatory` | linux/src/device_type_mapper/matter_device_type_selection.cpp:281-282 | a strict candidate's required matches are all of its mandatory clusters |
| `SelectionTheorems.StrictNarrows` | linux/src/device_type_mapper/matter_device_type_selection.cpp:218-220 | strict candidates are candidates without strict mapping too |
| `SelectionTheorems.SelectedConform` | linux/src/device_type_mapper/matter_device_type_selection.cpp:270-287 | every returned type conforms, and the list is empty if and only if none does |
| `SelectionTheorems.HeadIsBest` | linux/src/device_type_mapper/matter_device_type_selection.cpp:333-351 | the first type returned scores no higher than any conforming type |
| `SelectionTheorems.HeadIsExactlyBest` | linux/src/device_type_mapper/matter_device_type_selection.cpp:333-351 | for duplicate-free lists and types with at most 235 clusters together and at most 20 mandatory ones, the first type returned has the least score of all conforming types, counted exactly, whatever order the sort leaves |
| `SelectionTheorems.FittingScores` | linux/src/device_type_mapper/matter_device_type_selection.cpp:333-351 | where every score fits its byte the latest record has the least unwrapped score |
| `SelectionTheorems.WrappedScoreLoses` | linux/src/device_type_mapper/matter_device_type_selection.cpp:341-344 | on a table with n clusters in one type, all mandatory and all present, that type has the better score but is put behind a type without clusters if and only if n is 21 to 128 or 236 to 255 |
| `SelectionTheorems.NumericalScoreFits` | linux/src/device_type_mapper/matter_device_type_selection.cpp:341-344 | the byte is the intended score if and only if that lies in 0..255, as it does for at most 20 required and at most 235 misses and extras |
| `SelectionTheorems.SmallInputsFit` | linux/src/device_type_mapper/matter_device_type_selection.cpp:341-344 | it does for duplicate-free lists of at most 235 clusters with the type's own and at most 20 mandatory ones |
| `SelectionTheorems.SortIsSort` | linux/src/device_type_mapper/matter_device_type_selection.cpp:289-317 | sorted by misses, then required, then extras; same multiset |
| `DeviceTypeSelection.CompareClusters` | linux/src/device_type_mapper/matter_device_type_selection.cpp:34-65 | the first cluster of the type with this id decides, and counts by whether it is mandatory |
| `DeviceTypeSelection.ScoreComparisons` | linux/src/device_type_mapper/matter_device_type_selection.cpp:67-78 | the `uint8_t` sum over the list |
| `DeviceTypeSelection.ClusterIndex` | linux/src/device_type_mapper/matter_device_type_selection.cpp:80-90 | first position of an id, or -1; no overflow of the `int8_t` index |
| `DeviceTypeSelection.AttributePresent` | linux/src/device_type_mapper/matter_device_type_selection.cpp:106-113 | membership, with a `uint8_t` counter that terminates |
| `DeviceTypeSelection.CompareAttributes` | linux/src/device_type_mapper/matter_device_type_selection.cpp:92-123 | true exactly when every named attribute is known and present |
| `DeviceTypeSelection.CommandPresent` | linux/src/device_type_mapper/matter_device_type_selection.cpp:141-153 | true exactly when one of the first eight words before the end mark is the command |
| `DeviceTypeSelection.CompareCommands` | linux/src/device_type_mapper/matter_device_type_selection.cpp:125-161 | true exactly when every named command is known and found by that scan |
| `DeviceTypeSelection.ConformsToDeviceType` | linux/src/device_type_mapper/matter_device_type_selection.cpp:201-259 | true exactly when the type conforms, in both modes |
| `DeviceTypeSelection.ComputeScores` | linux/src/device_type_mapper/matter_device_type_selection.cpp:261-320 | the sorted scores of exactly the conforming types |
| `DeviceTypeSelection.Numerical` | linux/src/device_type_mapper/matter_device_type_selection.cpp:341-344 | the score in its `uint8_t` |
| `DeviceTypeSelection.SelectOnScore` | linux/src/device_type_mapper/matter_device_type_selection.cpp:322-353 | the front-insertion loop with its running best returns the records |
| `ClusterInteractor.BuiltWithoutDuplicates` | linux/src/matter_node_state_monitor/matter_cluster_interactor.cpp:71-170 | the built list is duplicate-free if and only if the mapped ids are distinct, none is the Descriptor's and only a mapped Basic cluster brings the bridged basic id |
| `ClusterInteractor.SoundTableSuffices` | linux/src/matter_node_state_monitor/matter_cluster_interactor.cpp:71-170 | with an injective name table that avoids those ids every endpoint's list is duplicate-free |
| `ClusterInteractor.MatterTypeIsCheapest` | linux/src/matter_node_state_monitor/matter_cluster_interactor.cpp:172-183 | a small endpoint gets the id of a conforming device type of least cost, and none exactly when no type conforms |
| `ClusterInteractor.BuiltIds` | linux/src/matter_node_state_monitor/matter_cluster_interactor.cpp:71-170 | the ids in the built list are those of clusters with attributes and a known name other than NameAndLocation, the Descriptor's, and the bridged basic one unless Basic is mapped |
| `ClusterInteractor.MappedAttributes` | linux/src/matter_node_state_monitor/matter_cluster_interactor.cpp:120-143 | a cluster has exactly the known ones of its attributes, the fixed additions and its emulator's, or the latter alone where the emulator clears |
| `ClusterInteractor.MappedCommands` | linux/src/matter_node_state_monitor/matter_cluster_interactor.cpp:97-113 | its known commands come first, then the end mark, then its emulator's |
| `ClusterInteractor.AlwaysThere` | linux/src/matter_node_state_monitor/matter_cluster_interactor.cpp:34-68 | the Descriptor and bridged basic clusters with their attributes |
| `ClusterInteractor.TranslateAllMembers` | linux/src/matter_node_state_monitor/matter_cluster_interactor.cpp:97-127 | an id is among the translated ones exactly when a name known for the cluster has it |
| `ClusterInteractor.MatterTypeIgnoresOrder` | linux/src/matter_node_state_monitor/matter_cluster_interactor.cpp:74 | the Matter device type does not depend on the order of the unordered map |
| `ClusterInteractor.BuildMatterCluster` | linux/src/matter_node_state_monitor/matter_cluster_interactor.cpp:71-170 | the clusters appended by the loop and the two synthesized ones |
| `ClusterInteractor.RegisterCluster` | linux/src/matter_node_state_monitor/matter_cluster_interactor.cpp:96-144 | one cluster: translated commands and attributes, the fixed additions, and the emulator, which may clear the lists first |
| `ClusterInteractor.RunEmulator` | linux/src/cluster_translator/cluster_emulator.cpp:318-331 | the emulator of a cluster appends to the lists, or clears them first as the Groups emulator does |
| `ClusterInteractor.Translate` | linux/src/matter_node_state_monitor/matter_cluster_interactor.cpp:97-127 | the known ones among the names, in order |
| `ClusterInteractor.GetMatterType` | linux/src/matter_node_state_monitor/matter_cluster_interactor.cpp:172-183 | the first of the selected types, as `uint16_t` |
| `ClusterInteractor.EndpointBuilder.OnDone` | linux/src/matter_node_state_monitor/matter_endpoint_builder.cpp:36-67 | a cluster is appended when its builder goes out of scope |
| `ClusterEmulator.DispatchIsLinearSearch` | linux/src/cluster_translator/cluster_emulator.cpp:334-397 | the index has a pair if and only if some emulator declares it, and gives the first in the list that does |
| `ClusterEmulator.GlobalWriteThrows` | linux/src/cluster_translator/cluster_emulator.cpp:340-414 | writing throws if and only if the attribute is global and no emulator declares it; reading never throws; the two agree on exactly the attributes that are not global |
| `ClusterEmulator.FirstDeclaringSpec` | linux/src/cluster_translator/cluster_emulator.cpp:135-150 | linear search finds the first declaring emulator |
| `ClusterEmulator.ClusterEmulatorIndex.constructor` | linux/src/cluster_translator/cluster_emulator.cpp:126-151 | the nested loops build a name map with the first emulator of each name, and indexes that answer every pair as linear search does |
| `ClusterEmulator.ClusterEmulatorIndex.IndexOne` | linux/src/cluster_translator/cluster_emulator.cpp:138-149 | the inner loop keeps earlier entries |
| `ClusterEmulator.ClusterEmulatorIndex.EmulatorOf` | linux/src/cluster_translator/cluster_emulator.cpp:319-323 | the first emulator with a cluster name, or none exactly when no emulator has it |
| `ClusterEmulator.ClusterEmulatorIndex.IsCommandEmulated` | linux/src/cluster_translator/cluster_emulator.cpp:334-338 | true if and only if some emulator declares the command for the cluster |
| `ClusterEmulator.ClusterEmulatorIndex.IsAttributeEmulated` | linux/src/cluster_translator/cluster_emulator.cpp:340-355 | true if and only if the attribute is global or some emulator declares it |
| `ClusterEmulator.ClusterEmulatorIndex.InvokeCommand` | linux/src/cluster_translator/cluster_emulator.cpp:357-370 | dispatches to the first emulator in the list that declares the command, and refuses exactly when none does |
| `ClusterEmulator.ClusterEmulatorIndex.ReadAttribute` | linux/src/cluster_translator/cluster_emulator.cpp:372-397 | global attributes answer for themselves; any other goes to the first emulator that declares it, and is refused exactly when none does |
| `ClusterEmulator.ClusterEmulatorIndex.WriteAttribute` | linux/src/cluster_translator/cluster_emulator.cpp:399-414 | goes to the first emulator that declares it; otherwise throws if the attribute is global and is refused if not |
| `BitmapCodec.DecodeEncode` | linux/zap-generated/data_model_translator/chip_types_to_json.hpp:256-269 | decoding what was encoded gives the bitmap restricted to the masks if and only if no field has a bit above its lowest |
| `BitmapCodec.SingleBitMasks` | linux/zap-generated/data_model_translator/chip_types_to_json.hpp:256-269 | with single-bit masks that is every bitmap |
| `BitmapCodec.DecodeIsStable` | linux/zap-generated/data_model_translator/chip_types_from_json.hpp:241-253 | what was decoded once survives encoding and decoding, whatever the masks |
| `BitmapCodec.DecodeSpec` | linux/zap-generated/data_model_translator/chip_types_from_json.hpp:241-253 | decoding fails exactly on a member of another type, and sets exactly the lowest bits switched on |
| `BitmapCodec.DecodeMeans` | linux/zap-generated/data_model_translator/chip_types_from_json.hpp:241-253 | in terms of the object: a missing member is false, a member that is no boolean makes it fail, and exactly the lowest bits of true fields are set |
| `BitmapCodec.EncodeMeans` | linux/zap-generated/data_model_translator/chip_types_to_json.hpp:256-269 | in terms of the bits: a member for exactly the fields, true where any bit of the field is set |
| `BitmapCodec.EncodeSpec` | linux/zap-generated/data_model_translator/chip_types_to_json.hpp:256-269 | each field's member says whether any of its bits is set |
| `AttributeStateCache.ReadsLastWrite` | linux/include/attribute_state_cache.hpp:59-173 | after any sets, a get returns the last content stored at that path, the value set there if it was no null, if the types share an alternative; it throws if they do not, and is null or missing if there was none; other paths and sets that store nothing do not matter |
| `AttributeStateCache.SetMeans` | linux/include/attribute_state_cache.hpp:59-87 | what one set stores, by the kind of its type |
| `AttributeStateCache.SetThenGet` | linux/include/attribute_state_cache.hpp:59-173 | a value set is read back if and only if it was stored or was there already; a null if and only if it stored nothing and nothing was there |
| `AttributeStateCache.AttributeCache.Set` | linux/include/attribute_state_cache.hpp:59-87 | one path changes, and only for a value that is stored; what a set of null stores is a parameter of the type |
| `AttributeStateCache.AttributeCache.Get` | linux/include/attribute_state_cache.hpp:118-173 | value, missing or bad access for a type at a path |

## Left out

- DeviceTypeSelection.ComputeScores: the library sort is the stable sort by the intended order, because the comparison given to it ends in `<=` and is no strict order, for which the library promises nothing.
- DeviceTypeSelection.CommandPresent: the scan covers `sizeof(pointer)` = 8 words and the end mark compared is 255; the words behind a shorter list are a parameter, the same for every list of one call.
- DeviceTypeSelection.ConformsToDeviceType: strict mapping needs at most 255 attributes per cluster, where the source's `uint8_t` counter would otherwise not end, and at most 128 clusters, where its `int8_t` index would otherwise turn negative and be taken for absent or make `at` throw.
- SelectionTheorems.SortIsStable: speaks of that stable sort; `SelectionTheorems.SelectionResult` and `SelectionTheorems.HeadIsExactlyBest` hold for the candidates in any order.
- NodeStateMonitor.MatterNodeStateMonitor.OnUnifyNodeAdded: every endpoint has a cluster, because the source reads the first one without asking.
- NodeStateMonitor.MatterNodeStateMonitor.BridgeAt: `reachable` is unset in the source while NODE_ADDED is delivered; it is false there.
- CommandTranslator.CommandTranslatorInterface.SendUnifyCommand: all clock readings of one call are one reading.
- AttributeTranslator.OnMqttMessage: whether the payload is JSON of the expected kind is an input; its conversion into cache writes is not modelled.
- GroupTranslator.GroupClusterCommandHandler.InvokeCommand: whether the group is known, has the endpoint and is listed, and the remaining identify time, are inputs; status codes of the response are not modelled.
- BitmapCodec.DecodeSpec: the SDK's bit-mask fields are not in the repository; setting a field is taken to clear it and put the boolean in its lowest bit, reading it to ask whether any bit is set.
- AttributeStateCache.AttributeCache.Set: spans and strings by reference. The SDK's `ExistingValueInEncodableRange` is not in the repository; it is taken to refuse just the reserved value, and what it lets a null store is a parameter, because linux/zap-generated/data_model_translator/chip_types_to_json.hpp:47 asks for null first where linux/include/attribute_state_cache.hpp:78 does not. A set that aborts on null is not modelled.
- The SDK's endpoint functions and key-value store are a table and a map; whether a Put succeeds is an input.
- Registration order of listeners: one log of notifications stands for all of them.
- `get_supported_cluster`, display functions and `send_unify_mqtt_command_with_callbacks`.
- Feature-map and revision tables, enum tables, attribute sizes, generated outgoing commands: finite data.
- Emulator implementations: what each declares is a parameter.
- MQTT client, TLV decoding, command line, configuration, threads and pointer lifetimes.
