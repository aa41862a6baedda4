# Verification of the OPC UA panel and its simulator

A touch panel discovers a plant over OPC UA, shows it, and mirrors its alarms; a simulator plays
the plant. This project models the parts of both programs that carry state over many steps, and
proves what they keep and what they achieve. `dafny verify dfyconfig.toml` checks everything.

## What is modelled

**Discovery** (`AddressSpace`, `Discovery`, `DiscoveryInvariant`, `DiscoveryTrace`, `Walk`,
`Shape`, `Reachability`, `Metadata`, `Room`, `Client`). The client walks the server's reference graph depth first, page
by page, and fills the model's bounded object and tag tables and three arrays parallel to them. The
server is an oracle: its answers are arbitrary, may fail anywhere, and may depend on every request
sent before. `Client.OpcUaClient` is the client as it works in place; each of its methods is proved
equal to a function of `Discovery`. About these functions it is proved, against any server, that
the tables stay aligned, the NodeIds unique and the objects a forest, and that every continuation
point of the walk is given back exactly once; against a server of one fixed address space (`World`), that the
page boundaries do not matter, that an uncut success records exactly the reachable objects and
the variables that they own, and that every published row says what the address space says of its node. The panel enters namespace 0 nodes other than the Server object
without recording them, so "owns" means: directly, or through such grouping folders.

**The model** (`DataModel`, `AlarmTable`, `Collections`, `NodeIds`, `CStrings`). The tables, the
structure batches and their generation counter, the classification of objects, and the alarm slots.
Slots are never given back before the table is cleared, so the slots are a map over every key that
was ever active: the 33rd different key is refused even when no alarm is active any more. The
table shows the standing alarms, at every moment, if and only if at most 32 different keys are
ever active.

**The overview** (`Hierarchy`, `Overview`, `Panel`). Ancestor tests, hierarchy depth, the deepest
shared scope of the selected signals, and the cards. These loops carry guards against cyclic
parents; the ancestor test and the scope search are proved exact on any table, cyclic or not, so the
guards never cut a chain short. On the forests that discovery publishes, every asset is on exactly
one root card, each card's two numbers count its active and its passive assets, the counts add up, the bindings suffice and the flat fallback card is dead code.

**The alarm path** (`Events`, `Plant`, `Faults`, `Session`, `Runs`, `Mirror`, `Latching`,
`FaultLimits`). The simulator's physics, its latching rules, the text of its events, the panel's
parser and the alarm table, connected over whole runs. One step of the station is stated part by part
(`Plant.Moves`): who runs, which readings go where and how far, and how the receiver balances supply and
demand between its limits. Parsing undoes printing exactly for the
texts that `Events.Printable` describes. Code and state survive the 127-byte buffer for messages of
any length; a long message loses only its end. While the slots suffice, as they do for ten
compressors, the alarms that the panel enumerates are the simulator's latched alarms, key for key,
after every run, with the severity and the message that are configured for their rules and the names of
their sources; and an alarm is latched exactly when its condition has held in some cycle since
the last reset (the temperature for the whole delay in a row). With thresholds at or above the
ratings no run raises a temperature or overload alarm; the shipped configuration is such a case (80
degrees against 80, 30 A against 20 A). A latched temperature alarm means that its compressor has
been hot, in every run, exactly when the delay is positive or all compressors are too hot even at
rest (`FaultLimits.TemperatureAlarmsMeanHeat`). The flags of the compressors are right in every run
exactly when all identifiers differ (`FaultLimits.FlagsAreTrueExactlyWhenIdsDiffer`); they go wrong
when a compressor shares the station's identifier, and when two compressors share one.

**Control state** (`Control`, `PanelObjects`). Pause and resume, the endpoint handshake with the
client's task, the sleep mode and the settings overlay, as one transition system whose steps are
the critical sections, and as objects whose histories are runs of that system. Sleep events are
posted after the sleep mode's mutex is given back. If posts can overtake each other, WAKE can be
handled before its ENTER; its resume is then lost and the awake panel stays paused.
`Control.RacingPostsLeakAPause` gives the run, `Control.SettledDepth` the exact condition for a
pause that nothing asks for (the panel is awake, its settings are closed, and some resume of the
run came at depth zero), `Control.OrderedPauseIsRight` the guarantee for ordered posts.

**Texts** (`PortalText`, `HumanName`). In-place URL decoding, both HTML escapers, the form field
lookup, and the display form of browse names. Both portals contain the same decoder and the same
table of entities, so each is modelled once. A name that is cut in its buffer can leave no room for
its terminator, because a separator and its letter are written after a check for one byte;
`HumanName.TerminatorFitsIffNoEdge` says exactly when, and the panel's 128-byte buffers for 63-byte
names are never in this case (`HumanName.LongBufferShowsAll`).

Texts are sequences of bytes, written as characters. `Records`, `Standing`, `Contents`, `History`
and similar functions are read as folds over a history, newest element last.

## Model

| member | source | states |
|---|---|---|
| Client.OpcUaClient.DiscoverAddressSpace | components/opcua_client/src/opcua_client.c:525-538 | Against any server: all-or-nothing. On GOOD the model and the mapping hold the tables of the specified discovery, classified: for every address space that the server serves, each row says what its node publishes, and every kind that is not explicit obeys the five rules; on any failure model, mapping and alarms are empty; the structure generation rises by exactly one (mod 2^32); model and mapping counts agree |
| Client.OpcUaClient.BrowseChildren | components/opcua_client/src/opcua_client.c:540-617 | Equals the specified walk in status, tables, requests sent and depth-bound flag; terminates on any reference graph by the measure (depth left, pages left, references left); never moves the structure generation inside the batch |
| Client.OpcUaClient.FollowContinuationPoints | components/opcua_client/src/opcua_client.c:571-616 | The BrowseNext loop and the final release: the same requests, tables and status as the recursive specification of what remains of one Browse |
| Client.OpcUaClient.ProcessChildReferences | components/opcua_client/src/opcua_client.c:619-697 | One page: works through the references in order up to the first failure, equal to the specification; model and mapping are aligned whenever it succeeds |
| Client.OpcUaClient.ProcessReference | components/opcua_client/src/opcua_client.c:626-694 | One reference: foreign servers skipped, namespace 0 folders entered without a row, the Server object never entered, known objects not visited twice, properties and ownerless variables not recorded |
| Client.OpcUaClient.AddObject | components/opcua_client/src/opcua_client.c:647-685 | Model row and mapping entry get the same index; out of memory exactly when the model or the mapping is full |
| Client.OpcUaClient.DescribeObject | components/opcua_client/src/opcua_client.c:651-674 | The row of a new object: parent and NodeId text; a published kind, or else Group for a folder, explicit exactly in these two cases; the reference kind of the reference, or Root below no object |
| Client.OpcUaClient.AddVariable | components/opcua_client/src/opcua_client.c:766-826 | A known variable changes nothing; a failed read ends the discovery with its status; otherwise the tag and its two mapping entries are stored under one index |
| Client.OpcUaClient.StoreVariable | components/opcua_client/src/opcua_client.c:788-819 | Tag row, NodeId and built-in type land at the same index; the tag has the access rights, the role and the type that the server answered, and its owner; out of memory exactly when the model or the mapping is full |
| Client.OpcUaClient.FindMappedNodeId | components/opcua_client/src/opcua_client.c:122-130 | The first index of the NodeId; INVALID_INDEX if and only if it is not mapped |
| Client.OpcUaClient.ClearTagNodeIds | components/opcua_client/src/opcua_client.c:1136-1147 | Both mapped counts are zero and every entry that was mapped is null |
| DiscoveryInvariant.DiscoverWellFormed | components/opcua_client/src/opcua_client.c:525-697 | Any server, any trace: on success, and with equal capacities on every failure too, table i belongs to mapping entry i, NodeIds are pairwise distinct, parents precede their children, every tag has an owner in range |
| DiscoveryInvariant.BrowseKeeps | components/opcua_client/src/opcua_client.c:540-617 | Every browse, at any depth and from any reached state, only extends the tables and keeps the invariant |
| DiscoveryInvariant.ReferenceKeeps | components/opcua_client/src/opcua_client.c:626-694 | The same for every single reference |
| DiscoveryTrace.DiscoverBalances | components/opcua_client/src/opcua_client.c:571-616 | Every continuation point that browse_children receives with a single result is consumed by one BrowseNext or released once, in last-in first-out order, on success and on every error path, and at most depth + 1 of them are ever open |
| Walk.DiscoverRefinesWalk | components/opcua_client/src/opcua_client.c:540-617 | A successful paged discovery has exactly the tables of an unpaged walk over the whole reference lists; if no request fails, full tables are the only reason not to succeed |
| Walk.PageSplitsDoNotMatter | components/opcua_client/src/opcua_client.c:571-616 | Two servers of one address space with different page boundaries yield the same tables, and succeed together when no request fails |
| Walk.WalkSplit | components/opcua_client/src/opcua_client.c:619-697 | Working through concatenated reference lists is working through them one after the other |
| Reachability.DiscoverIsSound | components/opcua_client/src/opcua_client.c:540-697 | Every recorded object is reachable from the Objects folder and its parent row is the nearest enclosing object; every recorded variable belongs to its owner; holds for cut runs too, and whatever metadata the server publishes |
| Reachability.DiscoverIsExact | components/opcua_client/src/opcua_client.c:540-697 | On any graph, cycles included, and whatever metadata the server publishes: after an uncut success the recorded objects are exactly the reachable local objects outside namespace 0, and the recorded variables exactly those that recorded objects own |
| Metadata.DiscoverDescribes | components/opcua_client/src/opcua_client.c:651-674 | After a successful discovery of an address space: every object row has the published kind, or else Group for a folder, is explicit exactly in these two cases, and has the reference kind of a reference that leads to it from its parent or a folder below that; every tag has its variable's access rights, role, built-in type and the panel's type for it |
| Metadata.NewVariableDescribed | components/opcua_client/src/opcua_client.c:788-819 | A new tag repeats what the server answered about its own variable and leaves all other rows true |
| Metadata.ClassifiedStaysDescribed | components/data_model/src/data_model.c:43-96 | Classification leaves all of this as it is |
| Shape.DiscoveriesAlike | components/opcua_client/src/opcua_client.c:640-694 | Any two servers that list the same references and fail the same reads lead to the same requests, status, NodeIds, parents and owners, whatever kinds, roles and types they publish |
| Reachability.NodeCompletes | components/opcua_client/src/opcua_client.c:619-697 | An uncut visit of a node leaves everything below it recorded and every newly recorded object completely handled |
| Reachability.PathEndsRecorded | components/opcua_client/src/opcua_client.c:619-697 | In a completely handled table every path from the Objects folder ends in a recorded object |
| Reachability.RowsAreDiscoverable | components/opcua_client/src/opcua_client.c:647-686 | Following parent rows upwards yields a path of references from the Objects folder |
| Room.DiscoverSucceeds | components/opcua_client/src/opcua_client.c:525-697 | A server that answers every request is discovered with GOOD whenever the reachable objects and their variables fit in the tables, at any depth bound |
| Room.FittingPlantIsDiscovered | components/opcua_client/src/opcua_client.c:525-697 | Total correctness: when the reachable objects and variables fit in the tables and no path that passes each object once is longer than the depth bound, a server that answers every request is discovered with GOOD, uncut, and exactly |
| NodeIds.NodeIdToText | components/opcua_client/src/opcua_client.c:1249-1292 | The 128-byte text of every kind of NodeId: the full text, clipped, up to the first NUL |
| NodeIds.FullTextInjective | components/opcua_client/src/opcua_client.c:1249-1292 | Different NodeIds have different full texts, across numeric, string, GUID and ByteString identifiers |
| NodeIds.RenderedIsFullText | components/opcua_client/src/opcua_client.c:1249-1292 | The stored text is the full text if and only if that fits the buffer and has no NUL |
| NodeIds.RenderedIdentity | components/opcua_client/src/opcua_client.c:1249-1292 | For NodeIds whose text fits, equality of stored texts is equality of NodeIds |
| NodeIds.FullTextIsTextOf | components/opcua_client/src/opcua_client.c:1249-1292 | The full text is "ns=", the namespace number in decimal, ";", one of the letters i, s, g and b with "=", and the identifier: a decimal number, the text, 8-4-4-4-12 small hexadecimal digits, or two such digits for each byte |
| NodeIds.RenderedIsFront | components/opcua_client/src/opcua_client.c:1249-1292 | The stored text is the longest front of the full text that the buffer shows; of a ByteString only whole bytes |
| DataModel.Model.constructor | components/data_model/src/data_model.c:108-132 | Empty tables of the requested capacities, generation one, no batch open |
| DataModel.Model.MarkStructureChanged | components/data_model/src/data_model.c:27-34 | Inside a batch only the dirty flag rises; outside one the generation does, once |
| DataModel.Model.Clear | components/data_model/src/data_model.c:147-162 | Objects, tags and alarms are empty; the change is batched or published once |
| DataModel.Model.BeginStructureUpdate | components/data_model/src/data_model.c:164-172 | Opens a batch without changing tables or generation |
| DataModel.Model.EndStructureUpdate | components/data_model/src/data_model.c:174-186 | Publishes the classified tables and one step of the generation counter if anything changed; explicit kinds stay, all others obey the five rules, quantified over rows and tags |
| DataModel.Model.ClassifyEntities | components/data_model/src/data_model.c:43-96 | The nested scans compute the declarative precedence rule for every object without an explicit kind and touch no other |
| DataModel.Model.InferKind | components/data_model/src/data_model.c:49-95 | The two scans give the kind of the precedence rule; DataModel.ClassifiedFollows says what that is |
| DataModel.ClassifiedFollows | components/data_model/src/data_model.c:49-95 | Five equivalences for every object without an explicit kind: System exactly when some row has it as parent; else Process exactly when an own tag has one of the three roles; else ActiveEquipment exactly when an own tag is writable or an operating status; else PassiveEquipment exactly when it has a tag; else Group. Explicit kinds and all other fields stay |
| DataModel.ClassifiedMeaning | components/data_model/src/data_model.c:43-96 | Classification changes only kinds, leaves no object unknown, and an inferred asset has tags and no children |
| DataModel.Model.AddEquipment | components/data_model/src/data_model.c:188-207 | Appends the row under its own index, or changes nothing and reports a full table |
| DataModel.Model.AddTag | components/data_model/src/data_model.c:209-228 | Appends the row under its own index, or changes nothing and reports a full table |
| DataModel.Model.UpdateAlarm | components/data_model/src/data_model.c:274-304 | One step of the slot table, with its error codes; the generation moves exactly when a slot changes |
| DataModel.Model.ClearAlarms | components/data_model/src/data_model.c:306-315 | The slot table is empty and the generation moves |
| DataModel.Model.GetActiveAlarm | components/data_model/src/data_model.c:317-336 | The k-th active alarm in slot order; found if and only if k is below the number of active alarms |
| DataModel.Model.ActiveAlarmCount | components/data_model/src/data_model.c:338-351 | The length of the same enumeration |
| DataModel.Model.AssetCount | components/data_model/src/data_model.c:383-396 | The number of active and passive assets |
| AlarmTable.ApplyRefinesMap | components/data_model/src/data_model.c:274-304 | One update is a map update: stored if and only if its key is held or it is active and a slot is free; no other key changes; keys stay unique |
| AlarmTable.HistoryRefinesMap | components/data_model/src/data_model.c:274-304 | Over any history without a refusal the slots are the map from every key ever active to its last update |
| AlarmTable.FullExactlyWhenTooManyKeys | components/data_model/src/data_model.c:274-304 | An update of a history is refused for lack of memory if and only if more than 32 different keys have been active in it |
| AlarmTable.ActiveOnesMeaning | components/data_model/src/data_model.c:317-351 | The dense enumeration lists exactly the active alarms, each key once |
| AlarmTable.ActiveOnesListShown | components/data_model/src/data_model.c:317-336 | What GetActiveAlarm enumerates is the map of the active slots: every entry once under its own key and nothing else |
| AlarmTable.ShowsStandingExactlyWhenFewKeys | components/data_model/src/data_model.c:274-351 | At every moment of a history what GetActiveAlarm enumerates is exactly the standing alarms with their last contents, if and only if at most 32 different keys are ever active |
| Hierarchy.HitsEarly | components/ui_generator/src/ui_overview.c:205-228 | On any table, cyclic or not, a parent chain that reaches a row at all reaches it within as many steps as there are rows, so a guard of that many steps cuts nothing |
| Hierarchy.AncestorsAreShallower | components/ui_generator/src/ui_overview.c:501-516 | On a forest an ancestor is strictly shallower |
| Hierarchy.DeepestScope | components/ui_generator/src/ui_overview.c:566-623 | On a forest the scope found is strictly deeper than every other common scope of the selected tags |
| Hierarchy.ShownMeaning | components/ui_generator/src/ui_overview.c:166-203 | On any table no asset is on two root cards, and exactly the assets are shown whose chain reaches a row with a parent outside the table |
| Hierarchy.OneRootPerChain | components/ui_generator/src/ui_overview.c:178-192 | No asset hangs below two roots |
| Hierarchy.RootOf | components/ui_generator/src/ui_overview.c:178-192 | On a forest every row hangs below a root |
| Hierarchy.CardsPartitionAssets | components/ui_generator/src/ui_overview.c:166-203 | The cards never show more nodes than there are assets; on a forest they show every asset exactly once |
| Hierarchy.FlatFallbackIsEmpty | components/ui_generator/src/ui_overview.c:189-196 | On a forest the flat fallback card is reached only when there is no asset for it either |
| Overview.OverviewPage.EquipmentBelongsToScope | components/ui_generator/src/ui_overview.c:205-228 | True if and only if the row is an asset and the root is its ancestor or itself, or the card is flat; on any table |
| Overview.OverviewPage.EquipmentHierarchyDepth | components/ui_generator/src/ui_overview.c:501-516 | The depth of the row in its forest |
| Hierarchy.DepthLeadsToRoot | components/ui_generator/src/ui_overview.c:501-516 | The depth is the number of steps up the chain to its root, and the chain leaves the table right after |
| Overview.OverviewPage.SourceInScope | components/ui_generator/src/ui_overview.c:585-607 | True if and only if the candidate is an ancestor of the source or the source itself; on any table |
| Overview.OverviewPage.FindSharedSignalScope | components/ui_generator/src/ui_overview.c:566-623 | Finds a scope that contains the owner of every selected tag and lies below every other such scope, so on a forest the deepest one; reports none if and only if none exists or nothing is selected |
| Overview.OverviewPage.CreateHierarchyCard | components/ui_generator/src/ui_overview.c:230-370 | Shows a card exactly when the root has assets, and binds every asset on it; the active count is the number of active rows below the root and the passive count that of passive ones, active nodes come first, and all rings fit |
| Overview.CardOfIsTrue | components/ui_generator/src/ui_overview.c:230-370 | On any table: the active count is the number of active rows below the root and the passive count that of passive ones; the first nodes are the active ones and the others the passive ones, both in table order; all rings fit and none overlap |
| Overview.OverviewPage.CreateHierarchyCards | components/ui_generator/src/ui_overview.c:166-203 | One card for every root that has assets; the flat card only when there is no such root; one binding for every node |
| Overview.OverviewPage.CountAssets | components/ui_generator/src/ui_overview.c:233-246 | The active and passive assets that belong to the card |
| Overview.OverviewPage.CreateEquipmentNode | components/ui_generator/src/ui_overview.c:390-400 | Appends a binding when one is left and changes nothing otherwise |
| Overview.OverviewPage.PlaceNode | components/ui_generator/src/ui_overview.c:354-367 | Row, column and offset of a node; the count of nodes left in its row never underflows |
| Overview.RingInsideCard | components/ui_generator/src/ui_overview.c:354-367 | Every ring, also the only one of a card, lies inside the content of its card, in width and in height |
| Overview.RowIsSpread | components/ui_generator/src/ui_overview.c:354-367 | A row of rings reaches from one padding to the other, and a ring that is alone stands in the middle |
| Overview.RingsDoNotOverlap | components/ui_generator/src/ui_overview.c:354-367 | No two rings of a card overlap, for any number of nodes |
| Panel.DiscoveryPublishesPlant | components/opcua_client/src/opcua_client.c:525-538 | What any successful discovery publishes is a forest of classified objects whose tags have owners: the condition of the overview's results |
| Panel.CardsCountShown | components/ui_generator/src/ui_overview.c:233-250 | The counts printed on the cards add up to the number of nodes shown |
| Panel.PlantIsShownOnce | components/ui_generator/src/ui_overview.c:166-203 | On a forest every asset is bound exactly once and the cards' counts add up to the asset count |
| Panel.CardsCountKinds | components/ui_generator/src/ui_overview.c:233-250 | On a forest the active counts of all cards add up to the number of active assets, and the passive counts to that of passive ones |
| Panel.DiscoverPlant | components/opcua_client/src/opcua_client.c:408 | After every discovery, successful or not, the published tables satisfy the overview's condition |
| Panel.ShowOverview | components/ui_generator/src/ui_overview.c:77-134 | On any such model the bindings are exactly its assets, each once, all on root cards in table order; every card counts its active and passive assets right and shows them in this order; the counts add up for each kind |
| Panel.ShowDiscoveredPlant | components/opcua_client/src/opcua_client.c:525-538 | From any server to the page, in one call: whatever it answers, every published asset is bound exactly once, every card is right and the counts add up for each kind, and after a failure the page is empty |
| Panel.ShowFittingPlant | components/opcua_client/src/opcua_client.c:525-538 | From the server to the page: a plant that fits is discovered, and the nodes bound on the page are exactly the discoverable objects that are classified as assets |
| Events.ParseEvent | components/opcua_client/src/opcua_client.c:1033-1059 | The parser equals its functional specification on every text, malformed ones included |
| Events.EventsAreExactly | components/opcua_client/src/opcua_client.c:1033-1051 | A message is taken for an event exactly when it has a bracketed code that is not empty and one of the two states behind it |
| Events.ParsedAt | components/opcua_client/src/opcua_client.c:1033-1059 | What is read from it: the code between the first brackets, active exactly when " ACTIVE:" follows, and the reason behind the first colon after the code and its spaces |
| Events.ParseUndoesPrint | simulator/opcua_server.py:313-325 | Parsing gives back code, state and message if and only if the printed text is printable: code of 1 to 47 bytes without a bracket, no leading space, nothing that reads like another state, and all of it fits |
| Events.KeyAndStateSurvive | components/opcua_client/src/opcua_client.c:1033-1052 | Code and state come through for messages of any length, if the message of a cleared alarm has nothing that reads as active |
| Events.ReasonIsCut | simulator/opcua_server.py:313-325 | A reason that begins with no space arrives as far as the buffer has room behind code and state |
| Events.OccursBeyond | components/opcua_client/src/opcua_client.c:1045-1046 | A pattern that cannot begin in the head of a text is found only behind it |
| Plant.MoveTowardMeaning | simulator/compressor_logic.py:173-178 | A non-negative step goes towards the target, by no more than the step, and never past it; it ends at the target or a whole step on |
| Plant.StationMoves | simulator/compressor_logic.py:113-151 | One step: demand is the wave within its limits; an automatic compressor runs exactly when 100 demand / maximum is at least its start percent, another on command; temperature and current go a step or the rest of the way to the target of the state; the receiver changes by (sum of the running compressors' rated flows - demand) response elapsed unless a limit binds, and then stands at it; the network goes towards max(0, receiver - demand drop); power is the sum of the loads |
| Plant.PressureFollowsSupply | simulator/compressor_logic.py:124-135 | Within the limits, the pressure does not fall while supply covers demand and does not rise while it does not exceed it |
| Plant.StationStaysInBounds | simulator/compressor_logic.py:43-151 | One step with any demand wave and any commands keeps temperatures, currents, both pressures and the total power within their limits |
| Plant.TotalPowerInBounds | simulator/compressor_logic.py:85-92 | Total power lies between zero and the sum of the ratings |
| Plant.CompressorModel.Update | simulator/compressor_logic.py:43-76 | The object's update equals the specified step of its state |
| Plant.StationModel.Update | simulator/compressor_logic.py:113-151 | The object's update, loops included, is such a step of the station: demand, dispatch, readings, receiver, network, power and dryer, each by its own rule, with the flows after the dispatch |
| Faults.EvaluationLatches | simulator/fault_scenarios.py:35-102 | Evaluation never drops a latched alarm and never latches a pair of source and code twice |
| Faults.EvaluationRaisesByRule | simulator/fault_scenarios.py:35-102 | Every alarm that is new after an evaluation comes from a rule of this station, with the severity and the message that are configured for its code and the identifier and name of its source |
| Faults.FlagsTellTheTruth | simulator/fault_scenarios.py:35-102 | With different identifiers, each compressor's flag after an evaluation is whether it owns a latched alarm |
| Faults.StationKeepsQuiet | simulator/fault_scenarios.py:41-76 | In physical bounds, with a positive delay and thresholds at or above the ratings, no temperature or overload alarm is latched |
| FaultLimits.TemperatureAlarmsMeanHeat | simulator/fault_scenarios.py:41-62 | For a sane station with different identifiers: in every run whoever owns a latched temperature alarm has been hot since the last reset, if and only if the delay is positive or every compressor is above the threshold even at rest |
| FaultLimits.ColdStartRaises | simulator/fault_scenarios.py:41-62 | The failing run without a delay: one idle cycle from the start latches the alarm of a compressor that is not hot |
| FaultLimits.FlagsAreTrueExactlyWhenIdsDiffer | simulator/fault_scenarios.py:80-102 | For any list of identifiers: in every run of every station with these identifiers and any fault configuration every flag says whether its compressor owns a latched alarm, if and only if all identifiers, the station's included, differ |
| FaultLimits.StationIdentifierMisleads | simulator/fault_scenarios.py:87-102 | The first failing shape, as a run from the start: the pressure alarm of the station is latched after a compressor with its identifier has been flagged |
| FaultLimits.CompressorIdentifierMisleads | simulator/fault_scenarios.py:38-87 | The second failing shape, as a run from the start in which all compressors read the same commands: the overload of a later compressor is latched after an earlier one with its identifier has been flagged |
| Latching.EvaluationExactly | simulator/fault_scenarios.py:35-102 | After one evaluation a pair of compressor and code is latched if and only if it was before or its condition holds now; the timers of compressors do not disturb each other |
| Latching.StationExactly | simulator/fault_scenarios.py:89-101 | The pressure alarm is latched after one evaluation if and only if it was before or the receiver is above the threshold |
| Latching.TimerCountsStreak | simulator/fault_scenarios.py:41-51 | Over every run the accumulated duration of a compressor is the length of its current run of hot cycles since the last reset |
| Latching.StreakMeaning | simulator/fault_scenarios.py:41-51 | Such a run is longer than m cycles if and only if the last m + 1 cycles were all hot and none of them but the first was a reset |
| Latching.LatchedSinceReset | simulator/fault_scenarios.py:35-123 | After every run an alarm of a compressor is latched if and only if its condition has held in some cycle since the last reset, the temperature for the whole delay in a row |
| Latching.SensorFaultIsCommanded | simulator/opcua_server.py:249-259 | The condition of a sensor alarm is that the last cycle commands the fault for this identifier and is no reset |
| Latching.PressureLatchedSinceReset | simulator/fault_scenarios.py:89-123 | After every run the pressure alarm is latched if and only if the receiver has been above the threshold in some cycle since the last reset |
| Latching.PanelAlarmMeans | simulator/main.py:59-72 | From the physics to the panel: while the slots suffice, the panel enumerates an alarm of a compressor if and only if its condition has held in some cycle since the last reset |
| Latching.PanelPressureMeans | simulator/main.py:59-72 | The same for the pressure alarm of the station |
| Faults.FaultManager.SetAlarm | simulator/fault_scenarios.py:144-168 | Latches and reports an alarm exactly when its condition holds and it is not latched yet |
| Faults.FaultManager.Evaluate | simulator/fault_scenarios.py:35-102 | Latches, durations, flags and reported transitions equal the specification; the transitions are exactly what was added to the latches |
| Faults.FaultManager.Reset | simulator/fault_scenarios.py:104-123 | Reports a clearing of every latched alarm in order, of the same source and code, without severity and with the reset message, and leaves no latch, duration, flag or sensor fault |
| Session.EventNotification | components/opcua_client/src/opcua_client.c:1007-1067 | An event that parses updates the slot table with an alarm of its own code, state, reason and severity, the text of its node, and its source's name up to a NUL or 63 bytes; any other changes nothing |
| Session.RecordKeepsKey | simulator/opcua_server.py:313-331 | A raising and its clearing event arrive with the same key and opposite states |
| Session.AlarmArrives | simulator/opcua_server.py:313-331 | Raising and clearing events of every clean transition arrive with its severity, code and state, the node and clipped name of its source, and as much of its message as has room |
| Session.ReasonArrives | simulator/opcua_server.py:313-325 | The operator reads the simulator's own message whenever the event is printable |
| Session.MessagesAreClean | simulator/fault_scenarios.py:53-101 | The messages that the rules print contain no colon, so the results about runs apply to them |
| Session.RunCycle | simulator/main.py:59-72 | The loop body on the simulator's objects equals the specified cycle: commands, reset and its events, physics, evaluation, events |
| Session.ReadCommands | simulator/opcua_server.py:249-259 | Every compressor gets the three values of the command variables of its identifier, so compressors that share one are told the same, and nothing else changes |
| Session.StartedObeys | simulator/main.py:59-72 | What the rules see in a cycle: first every compressor has the commands of its identifier, a reset takes back sensor faults and flags, and then the station moves by one step |
| Mirror.PanelShowsLatchedAlarms | simulator/main.py:59-72 | After every run from the start, with any commands, resets and demand: the panel always enumerates the standing alarms if and only if at most 32 keys were active, and then it enumerates exactly the latched alarms with their contents |
| Mirror.PanelShowsRuleAlarms | simulator/main.py:59-72 | While the slots suffice, every alarm enumerated after a run is a latched alarm of a rule as it arrives: configured severity and message, node and name of its source; every latched alarm has its key among them, and no key is there twice |
| Mirror.StationIsMirrored | simulator/fault_scenarios.py:35-167 | With distinguishable sources and while the slots suffice, a pair of source and code is latched if and only if the panel enumerates its key, after every run |
| Mirror.PanelSufficesForTen | components/data_model/src/data_model.c:291-298 | The slots suffice for every run of a station of at most ten compressors |
| Mirror.RunSession | simulator/main.py:59-72 | Simulator and panel as objects: after any number of cycles the panel's table is the history of the emitted events, and while the slots suffice what GetActiveAlarm enumerates is the latched alarms, each with the severity and message configured for its rule and the node and name of its source |
| Mirror.Deliver | components/opcua_client/src/opcua_client.c:1007-1067 | Events delivered in order extend the history that the table holds |
| Mirror.CycleMirrors | simulator/main.py:59-72 | Every cycle, with or without reset, keeps the correspondence between emitted events and latches |
| Mirror.PossibleKeysBound | simulator/fault_scenarios.py:35-102 | A station of n compressors can raise at most 3n + 1 different keys |
| Runs.RunFlagsTellTheTruth | simulator/fault_scenarios.py:80-87 | After every run of a station with different identifiers each compressor's flag is whether it owns a latched alarm |
| Runs.RunLatchesFollowRules | simulator/fault_scenarios.py:35-102 | After every run every latched alarm has the severity and message configured for its code and the name of its source |
| Runs.RunStaysInBounds | simulator/compressor_logic.py:43-151 | Over every run all temperatures, currents, pressures and the total power stay within their ranges, also as the rules see them |
| Runs.RatedStationNeverOverheats | simulator/fault_scenarios.py:41-76 | With a positive delay and thresholds at or above the ratings no run ever latches a temperature or overload alarm |
| Control.NoEndpointChangeIsLost | components/opcua_client/src/opcua_client.c:264-430 | Under every interleaving, a session that passes its loop guard uses the configured endpoint |
| Control.SleepingIsDark | components/sleep_mode/src/sleep_mode.c:85-182 | Under every interleaving, while sleeping the last brightness set is the sleep level, late wake timers included |
| Control.RunConserves | components/opcua_client/src/opcua_client.c:211-236 | In every run, posted and pending events are conserved, and the pause depth is the balance of handled events plus open settings plus lost resumes |
| Control.SettledDepth | components/ui_generator/src/ui_generator.c:504-523 | With every event handled, in any order: the client is paused if and only if the panel sleeps, its settings are open, or some resume of the run came at depth zero; so the pause is there for sleep or settings and nothing else, if and only if one of them asks for it or no resume came too early |
| Control.WastedMeaning | components/opcua_client/src/opcua_client.c:224-236 | The resumes that release nothing are exactly the WAKE events handled and the settings closed at depth zero |
| Control.OrderedDepth | components/sleep_mode/src/sleep_mode.c:85-160 | With posts in order: ENTER and WAKE alternate, no resume runs at depth zero, and the depth is one for a handled ENTER plus one for open settings, at every step |
| Control.OrderedPauseIsRight | main/main.cpp:34-44 | With posts in order and every event handled, the client is paused if and only if the panel sleeps or its settings are open |
| Control.RacingPostsLeakAPause | components/sleep_mode/src/sleep_mode.c:85-160 | A run in which WAKE is posted before its ENTER and leaves the awake panel paused |
| Control.LeakedPauseStays | components/opcua_client/src/opcua_client.c:224-236 | After one resume that came too early the client is paused in every later settled state |
| PanelObjects.ControlFields.Pause | components/opcua_client/src/opcua_client.c:211-222 | The session ends at its next guard, even when it is resumed before that; one resume restores the depth unless the counter wraps; a session with an outdated endpoint stays marked for reconnection |
| PanelObjects.ControlFields.Resume | components/opcua_client/src/opcua_client.c:224-236 | The client stays paused if and only if more than one pause was open; a resume at depth zero is lost; the reconnection mark of an outdated session survives |
| PanelObjects.ControlFields.SetEndpoint | components/opcua_client/src/opcua_client.c:264-280 | Accepts an endpoint with the right prefix that fits; then no running session passes its guard and the next connection uses it; otherwise nothing changes |
| PanelObjects.ControlFields.CopyEndpoint | components/opcua_client/src/opcua_client.c:379-382 | The new session has the configured endpoint and passes its guard unless paused |
| PanelObjects.ControlFields.CheckSession | components/opcua_client/src/opcua_client.c:429-430 | A session that goes on has the configured endpoint and is not paused |
| PanelObjects.SleepContext.EnterSleepInternal | components/sleep_mode/src/sleep_mode.c:85-120 | The panel sleeps and is dark; an event is asked for exactly when it was awake |
| PanelObjects.SleepContext.WakeInternal | components/sleep_mode/src/sleep_mode.c:122-160 | The panel is awake; without a delay it has its light at once, with one it stays dark until the timer; an event is asked for exactly when it slept |
| PanelObjects.SleepContext.WakeBrightnessTimerCallback | components/sleep_mode/src/sleep_mode.c:168-182 | Afterwards the brightness is the one of the state, so a late callback does not light a panel that sleeps again |
| PanelObjects.PanelObject.HandleSleepEvent | main/main.cpp:34-44 | The handler keeps the whole panel on a run of the transition system: no event is lost, a sleeping panel is dark, an outdated session is marked |
| PanelObjects.PanelObject.CloseSettingsOverlay | components/ui_generator/src/ui_generator.c:504-523 | The same for closing the overlay, which resumes the client only when it was open |
| PanelObjects.PanelObject.IterateTask | components/opcua_client/src/opcua_client.c:429-430 | Whatever happened before, a session that goes on is connected to the endpoint that is configured now |
| PanelObjects.PanelObject.IsPaused | main/main.cpp:34-44 | On the object: with no event on its way it is paused if and only if it sleeps, its settings are open or a resume of its history came too early; for ordered posts if and only if one of the first two |
| PortalText.UrlDecode | components/settings/src/openplc_config_portal.c:47-64 | Decoding in place equals the functional decoder, ends inside the buffer and leaves the bytes behind the old text alone |
| PortalText.DecodeUndoesEncode | components/settings/src/config_portal.c:638-661 | Decoding undoes every form encoder, whatever it leaves plain and whichever case its digits have |
| PortalText.DigitsMeaning | components/settings/src/config_portal.c:638-661 | The digits of an escape are the hexadecimal ones, small or capital, counting from zero |
| PortalText.PlainTextIsKept | components/settings/src/config_portal.c:638-661 | A text without plus signs and whole escapes is not changed; a percent sign that begins no escape stands for itself |
| PortalText.HtmlEscape | components/settings/src/openplc_config_portal.c:66-88 | The bounded escaper writes the escape of the longest prefix that fits and splits no entity |
| PortalText.HtmlEscapeDup | components/settings/src/config_portal.c:599-636 | The allocating escaper writes the whole escape; six bytes for every source byte and one for the end suffice |
| PortalText.BoundedEscapeIsWhole | components/settings/src/openplc_config_portal.c:66-88 | The bounded escaper writes everything if and only if the escape fits, which a buffer beyond six times the source guarantees |
| PortalText.EscapeIsInert | components/settings/src/config_portal.c:599-636 | Escaped text contains no bracket and no quote |
| PortalText.UnescapeUndoesEscape | components/settings/src/config_portal.c:599-636 | Unescaping gives back every text |
| PortalText.LocateField | components/settings/src/config_portal.c:663-705 | The cursor loop finds the first pair with the key, as the recursive specification does |
| PortalText.FormGetValue | components/settings/src/config_portal.c:663-705 | The buffer holds the decoded, clipped value of that field, or reports that there is none |
| PortalText.FieldsArrive | components/settings/src/config_portal.c:663-705 | From a form encoded from any list of fields the lookup returns the first field with the key, decoded from as much of its encoding as fits its buffer; the other fields may be of any length |
| PortalText.PairWithoutValue | components/settings/src/config_portal.c:663-705 | A pair without an equals sign is passed over |
| PortalText.FieldsComeBack | components/settings/src/config_portal.c:663-705 | What the portal reads of the first field with a key is the whole value if and only if the value has no NUL and its encoding fits the buffer of that key, or the cut leaves "%" or "%2" just where the value ends in the same text |
| HumanName.HumanizeName | components/ui_generator/src/ui_theme.c:214-265 | The buffer holds the display form of as much of the name as has room |
| HumanName.HumanizedLength | components/ui_generator/src/ui_theme.c:221-260 | A display name is at most twice as long as its name |
| HumanName.HumanizedKeepsLetters | components/ui_generator/src/ui_theme.c:221-263 | Apart from separators and the first capital, the display name has the characters of the name in their order |
| HumanName.DisplayFormReached | components/ui_generator/src/ui_theme.c:221-263 | Every display name has a space before every inner word, no dash, no trailing space and no small first letter |
| HumanName.SeparatorsWhereWordsMeet | components/ui_generator/src/ui_theme.c:221-263 | No display name has a capital right behind a small letter or between a capital and a small letter, a digit right behind a letter or a letter right behind a digit; a name that has none of these and no dash gets no separator |
| HumanName.DashBecomesSpace | components/ui_generator/src/ui_theme.c:236-243 | A dash or underscore between two parts becomes one space |
| HumanName.HumanizeIsIdempotent | components/ui_generator/src/ui_theme.c:214-265 | A display name is its own display name |
| HumanName.TerminatorFitsIffNoEdge | components/ui_generator/src/ui_theme.c:224-260 | Text and terminator fit the buffer if and only if no separated letter falls on its last place but one |
| HumanName.TerminatorCanLackRoom | components/ui_generator/src/ui_theme.c:250-260 | "aB" in three bytes is such a name |
| HumanName.LongBufferShowsAll | components/ui_generator/src/ui_theme.c:224-260 | A buffer of more than twice the name shows all of it, terminator included |

## Left out

- Reachability.DiscoverIsExact: completeness is stated for runs that never met the depth bound, because a node first met too deep is marked and not expanded again on a shorter path; Room.FittingPlantIsDiscovered says on which graphs the bound is never met.
- Client.OpcUaClient.DescribeObject: browse names, display names, type definition texts and descriptions are not part of the rows; the metadata browse of an object is one arbitrary answer.
- Client.OpcUaClient.AddVariable: names, engineering unit, range and first value are not part of the rows; the attribute reads are one arbitrary answer.
- Client.OpcUaClient.FollowContinuationPoints: copying a continuation point or a NodeId never fails for lack of memory.
- DiscoveryTrace.DiscoverBalances: the ledger does not book two kinds of continuation points, which the code neither follows nor releases: those of a reply with a number of results other than one (components/opcua_client/src/opcua_client.c:571-600), and those of the metadata browses of objects and variables (713-763, 828-895).
- DataModel.Model.constructor: capacities are below the invalid index, which a table of that many rows in 32-bit memory cannot reach; allocation does not fail.
- DataModel.Model.UpdateAlarm: a missing argument (NULL) and the lock around every operation are not modelled; every operation is one atomic step.
- Overview.OverviewPage.CreateHierarchyCard: the look of a card, the status and alarm tags of a node, and the width of the coordinate type are not modelled; the page assumes a model that does not change while it is laid out.
- Session.EventNotification: notifications with missing or wrongly typed fields, which the panel ignores, are not represented; the subscription delivers in order and without loss.
- Session.RunCycle: what the server publishes and writes back (run commands in automatic mode, the reset and sensor fault commands) is not carried from one cycle to the next; the results hold all the same, because the commands that a cycle reads are arbitrary for every identifier. The demand wave is an arbitrary value instead of a sine, and floating point rounding is replaced by real numbers.
- Faults.FaultManager.Evaluate: the alarm codes are the four that the rules use, and formatted thresholds are given as text.
- Control.SettledDepth: runs have at most 2^32 - 1 steps, because the pause depth is a 32-bit counter that wraps.
- Control.OrderedDepth: the idle timer, the callback interface, initialisation and shutdown of the sleep mode, and event posts that the full queue refuses, are not modelled.
- HumanName.HumanizeName: called only where the terminator fits; missing arguments (NULL) are not modelled.
- PortalText.HtmlEscapeDup: allocation does not fail.
- PortalText.DecodeUndoesEncode: encoders are those of section 2.1 of RFC 3986 with '+' for a space; the sockets and handlers around the portals are not modelled.
- The selection of signals for the overview's slots, trends, controls, write requests, subscriptions, value updates, Wi-Fi, time synchronisation, persistence and firmware update: independent of the properties proved here.
