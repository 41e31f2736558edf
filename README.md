# WirePeep core in Dafny

WirePeep watches network connectivity. It pings a set of *locations* (named
IP addresses). Each location belongs to a *peer group*, and a group counts as
failed once all of its locations have stayed unreachable for the group's
`Fail` time. This project models and verifies the engine behind that:

- **Throttling.** `PeerGroup.CanPoll` uses a 20 ms tolerance.
- **Location updates.** `LocationState.Update` is the per-location probe update.
- **Group updates.** `PeerGroupState.Update` scans the locations round-robin, stops at the first `Connected` one, takes the last non-null result as the verdict, and applies the failure hysteresis.
- **The state registry.** `StateManager` keeps its lists of group and location states in step with the profile's collection events: Add, Remove, Replace, Move and Reset. It then rebuilds the group → locations map, updates every group and publishes copies.
- **The snapshot.** `StateSnapshot` models the dictionary and its failed-changed filter.
- **The profile.** `Profile` covers loading with validation, the bundled defaults with their ordinal names and the duplicate-address check (which, as written, never matches; see the findings), `RevertToDefaults`, and the way locations follow the group collection's events.
- **The view models:**
  - the peer-group dialog's grid rows (clamping, name trimming, `CreateGroup`) and the merge its `Execute` runs, both as written and corrected;
  - `StatusRow.Update` and `LogRow.Update`;
  - the change-only `Update<T>` of `PropertyChangeNotifier`;
  - `MainWindow.UpdateStates`, which reconciles the status grid's rows with a key → row map.

## How things are modelled

- **Time and identifiers.** Times and durations are integer milliseconds. `DateTime.MinValue` is 0. Guids are naturals, and `Guid.Empty` is 0. Fresh ids are parameters.
- **Addresses.** An `IPAddress` is its bytes plus an object number. Two addresses are equal only as the same object. That is what `==` means on this class without an operator overload (see the findings).
- **Records and objects.** `PeerGroup` and `Location` are immutable records, modelled as datatypes. The state objects are classes whose fields the methods update: `LocationState`, `PeerGroupState`, `StateManager`, `StateSnapshot`, `Profile`, the grid row, `StatusRow`, `LogRow`, `PropertyChangeNotifier` and `MainWindow`.
- **Specifications.** Each state-changing method is proved against a specification function of the old state:
  - `Poll` is the specification for a location update;
  - `GroupUpdate` and `Scan` are the specification for a group update;
  - `Changed`, `LocationsChanged` and `Regrouped` over a `Registry` value are the specification for the registry;
  - `Added` and `AddAll` are the specification for the defaults;
  - `ChangedLocations` is the specification for profile events;
  - `MergeStep` and `Merged` are the specification for the dialog merge;
  - `Shown` and `Changes` are the specification for a status row;
  - `Logged` is the specification for a log row;
  - `Reconciled` is the specification for the grid.

  The source's promises are then lemmas about those functions.
- **The ping.** It is an oracle parameter `probe(address, wait, utcNow)` that returns a `bool?` reply and a round-trip time.
- **Settings nodes.** A settings node is a value with a name, a string-valued map and sub-nodes. Guid and address parsing and formatting are function parameters.
- **Events.** An event raised is recorded as the property name it carries, appended to a `Raised` list. Handlers are a count.
- **Collection events.** A `CollectionChange` value stands for a collection event. Its `Add(newItems)`, `Remove(oldItems)`, `Replace(oldItems, newItems)`, `Move` and `Reset` carry the event's item lists.
- **Exceptions.** Where the source throws (an `Add` of a present key, a `ToDictionary` over repeated ids, a `.Value` of null, a constructor given an empty name), the model returns `false` or `None`. The state is what the code leaves at that point.

Where the sources disagree with one another, the model follows each file and says so:

- **`StateManager.Update`.** It passes a `bool` to `PeerGroupState.Update`, which takes `(DateTime, IReadOnlyList<LocationState>, ConnectionState?)` (`src/WirePeep.Common/StateManager.cs:54,63`). `MainWindow` calls `Update()` with no argument (`src/WirePeep/MainWindow.xaml.cs:172`). The model's `StateManager.Update(utcNow, simulateConnection, probe)` passes the time and the simulated connection through.
- **`locationState.IsConnected`.** `StatusRow` reads this property, but `LocationState` does not have it (`src/WirePeep/StatusRow.cs:79`). The model reads it as the inverse of the ping mapping: Connected → true, Disconnected → false, Unavailable → null (`StatusRows.IsConnected`).
- **`TruncateToSeconds`.** `LogRow` calls `MainWindow.TruncateToSeconds`, which `MainWindow.xaml.cs` does not define. It is a function parameter `truncate` with no properties assumed.
- **`Pinger.TryPing`.** In `src/WirePeep.Common/Pinger.cs` it returns `bool`, yet `LocationState` switches on a `bool?` including `null`. The oracle returns `bool?`, as `LocationState` expects.

## Model

| member | source | states |
|---|---|---|
| PeerGroups.CanPollBoundary | src/WirePeep.Common/PeerGroup.cs:63 | the throttle is a strict inequality with a 20 ms tolerance: exactly `Poll - 20ms` after the last poll is too early, one millisecond later is allowed |
| PeerGroups.CanPollMonotone | src/WirePeep.Common/PeerGroup.cs:63 | once polling is allowed at `t` it is allowed at every later time for the same last poll |
| PeerGroups.NewPeerGroup | src/WirePeep.Common/PeerGroup.cs:32-40 | needs a non-empty name; the group has the given name and durations, and the given id or else the fresh one |
| PeerGroups.TryLoad | src/WirePeep.Common/PeerGroup.cs:69-89 | a group loads exactly when the node exists, its name parses as a Guid and its `Name` is non-empty; the id is the node name and each duration is the stored value or its default |
| PeerGroups.TryLoadDefaults | src/WirePeep.Common/PeerGroup.cs:76-78 | a node without stored durations loads as Fail 10 s, Poll 5 s, Wait 200 ms |
| PeerGroups.Save | src/WirePeep.Common/PeerGroup.cs:91-99 | the node keeps its name and reads back the group's name and its three durations |
| PeerGroups.SaveTryLoadRoundTrip | src/WirePeep.Common/PeerGroup.cs:69-99 | loading what `Save` wrote into the node named by the id gives back the same group |
| Locations.NewLocation | src/WirePeep.Common/Location.cs:22-32 | needs a non-empty name; the location has the given group, name and address, and the given id or else the fresh one |
| Locations.TryLoad | src/WirePeep.Common/Location.cs:56-75 | a location loads exactly when the node exists, its name is a Guid, the address parses, the name is non-empty and the stored group id is in the map; it then has that id, name, address and the mapped group |
| Locations.Save | src/WirePeep.Common/Location.cs:77-84 | the node reads back the group id, the name and the formatted address |
| Locations.SaveTryLoadRoundTrip | src/WirePeep.Common/Location.cs:56-84 | with the group in the map and address text that parses back, loading what `Save` wrote gives the same id, name, group and address |
| LocationStates.LocationState.constructor | src/WirePeep.Common/LocationState.cs:21-25 | a new state has the location, counter -2, `Unavailable`, no round trip and last poll at `MinValue` |
| LocationStates.ReplyConnection | src/WirePeep.Common/LocationState.cs:63-77 | the reply maps true to Connected, false to Disconnected and null to Unavailable, each in both directions |
| LocationStates.PollThrottled | src/WirePeep.Common/LocationState.cs:45-50 | when the group forbids polling, the result is null and no field changes |
| LocationStates.PollRecords | src/WirePeep.Common/LocationState.cs:80-85 | a polled update stores the counter and the poll time and returns whether the connection changed |
| LocationStates.PollSimulated | src/WirePeep.Common/LocationState.cs:56-60 | a simulated connection becomes the connection, with a zero round trip |
| LocationStates.PollProbed | src/WirePeep.Common/LocationState.cs:63-77 | without a simulated connection, the probe's reply (with the group's wait as timeout) decides the connection three ways |
| LocationStates.LocationState.Update | src/WirePeep.Common/LocationState.cs:45-89 | the result and the new fields are exactly `Poll` of the old fields; the location never changes |
| LocationStates.LocationState.ShallowCopy | src/WirePeep.Common/LocationState.cs:91 | the copy holds the location and the current fields |
| PeerGroupStates.PeerGroupState.constructor | src/WirePeep.Common/PeerGroupState.cs:17-21 | a new state has the group, counter -1, `Unavailable`, not failed, nothing stamped |
| PeerGroupStates.PeerGroupState.Update | src/WirePeep.Common/PeerGroupState.cs:49-109 | the group's new fields and every location's new fields are those `GroupUpdate` computes from the old ones |
| PeerGroupStates.PeerGroupState.ScanLocations | src/WirePeep.Common/PeerGroupState.cs:62-81 | the loop leaves the verdict and the location fields that `Scan` defines |
| PeerGroupStates.PeerGroupState.VisitLocation | src/WirePeep.Common/PeerGroupState.cs:66-68 | step `i` updates the location at `(counter + i) % n` as `Poll` says and no other location |
| PeerGroupStates.PeerGroupState.AdoptConnection | src/WirePeep.Common/PeerGroupState.cs:84-92 | a non-null scan verdict becomes the connection; a change stamps `ConnectionChanged` |
| PeerGroupStates.PeerGroupState.UpdateIsFailed | src/WirePeep.Common/PeerGroupState.cs:94-107 | the failure flag follows the hysteresis rule and a flip stamps `IsFailedChanged` |
| PeerGroupStates.PeerGroupState.ShallowCopy | src/WirePeep.Common/PeerGroupState.cs:111 | the copy holds the group and the current fields |
| PeerGroupStates.LastReportedIsLast | src/WirePeep.Common/PeerGroupState.cs:71-75 | the running verdict is null exactly when every visit returned null, else the connection of a non-null visit after which all were null |
| PeerGroupStates.ScanIndices | src/WirePeep.Common/PeerGroupState.cs:64-66 | step `j` visits index `(counter + i + j) % n`, and there are at most `n - i` steps |
| PeerGroupStates.ScanVisitsDistinct | src/WirePeep.Common/PeerGroupState.cs:64-66 | every visited index is in range and none is visited twice |
| PeerGroupStates.ScanStopsAtConnected | src/WirePeep.Common/PeerGroupState.cs:71-80 | only the last visit can report Connected, and a scan that ends early ends on one that does |
| PeerGroupStates.ScanVerdict | src/WirePeep.Common/PeerGroupState.cs:62-81 | the scan's verdict is the connection of the last visit with a non-null result |
| PeerGroupStates.ScanConnectedIff | src/WirePeep.Common/PeerGroupState.cs:73-79 | the verdict is Connected exactly when some visit reported Connected |
| PeerGroupStates.ScanLeavesUnvisited | src/WirePeep.Common/PeerGroupState.cs:64-68 | a location state that no visit updated keeps its fields |
| PeerGroupStates.ScanFindsReply | src/WirePeep.Common/PeerGroupState.cs:64-80 | when every remaining location is due and one of them answers, the scan's verdict is Connected |
| PeerGroupStates.ScanConnectedWhenOneReplies | src/WirePeep.Common/PeerGroupState.cs:64-80 | with distinct locations all due, one positive reply makes the verdict Connected |
| PeerGroupStates.GroupThrottled | src/WirePeep.Common/PeerGroupState.cs:51-52 | a throttled update only records the request time and touches no location |
| PeerGroupStates.GroupBookkeeping | src/WirePeep.Common/PeerGroupState.cs:51-58 | every call records the request; a polled one records the update time, adds one to the counter and scans with the new counter |
| PeerGroupStates.GroupVerdict | src/WirePeep.Common/PeerGroupState.cs:83-87 | after a polled update the connection is unchanged when no location answered (so always with none) and otherwise is that of the last answering visit; any Connected visit makes it Connected |
| PeerGroupStates.GroupConnectionChanged | src/WirePeep.Common/PeerGroupState.cs:89-92 | `ConnectionChanged` is stamped with the time exactly when the connection changed |
| PeerGroupStates.GroupHysteresis | src/WirePeep.Common/PeerGroupState.cs:94-107 | Connected or Unavailable clears the flag; it rises exactly on Disconnected once `Fail` has passed since the last change (or none was stamped); failed stays failed while Disconnected; `IsFailedChanged` is stamped exactly on a flip |
| PeerGroupStates.InitialGroupInvariant | src/WirePeep.Common/PeerGroupState.cs:17-21 | a new group state satisfies the group invariant |
| PeerGroupStates.GroupUpdatePreservesInvariant | src/WirePeep.Common/PeerGroupState.cs:49-109 | every update keeps the invariant: a settled connection has a stamped change, and a failed group is Disconnected and flipped at least `Fail` after its last change |
| PeerGroupStates.GroupConnectedWhenOneReplies | src/WirePeep.Common/PeerGroupState.cs:49-109 | a polled group whose distinct locations are all due, one of which answers, ends Connected and not failed |
| Registries.WithItemsExtends | src/WirePeep.Common/StateManager.cs:90-102 | adding states keeps the existing ones in place and brings in exactly the missing groups |
| Registries.WithItemsDistinct | src/WirePeep.Common/StateManager.cs:90-102 | adding never gives a group a second state |
| Registries.Replaced | src/WirePeep.Common/StateManager.cs:127-138 | a Replace never changes the length of the list |
| Registries.ReplacedKeepsOthers | src/WirePeep.Common/StateManager.cs:127-138 | an entry that no pair replaces keeps its index |
| Registries.ReplacedFromNew | src/WirePeep.Common/StateManager.cs:127-138 | whatever a Replace changes, it changes to one of the new items |
| Registries.ReconciledExactly | src/WirePeep.Common/StateManager.cs:144-157 | after a Reset, the states stand for exactly the profile's items |
| Registries.ReconciledDistinct | src/WirePeep.Common/StateManager.cs:144-157 | after a Reset, each profile item has exactly one state |
| Registries.Provide | src/WirePeep.Common/StateManager.cs:170-184 | a location without a state gets its group a state, and has a state afterwards exactly when it had one or `allowAdd` holds |
| Registries.ProvideAllGroups | src/WirePeep.Common/StateManager.cs:170-184 | providing locations only ever appends group states |
| Registries.LocationsChangeAsItems | src/WirePeep.Common/StateManager.cs:186-239 | the location edits of each event are the same list edits the event makes to the group states |
| Registries.RegroupedCovers | src/WirePeep.Common/StateManager.cs:241-246 | after the map rebuild, every location's group has a state and no group state was lost |
| StateManagers.GroupByMatches | src/WirePeep.Common/StateManager.cs:241-246 | the rebuilt map has one key per group of the locations, each key that group's state, each value that group's locations in list order |
| StateManagers.MatchingIsDisjoint | src/WirePeep.Common/StateManager.cs:63 | the map's entries share no group and no location state, so updating them in parallel is the same as in sequence |
| StateManagers.Copies | src/WirePeep.Common/StateManager.cs:72 | the copies have the same length and hold each location and its fields, position by position |
| StateManagers.StateManager.constructor | src/WirePeep.Common/StateManager.cs:27-36 | the registry is the group Reset, then the location Reset, of the profile; fresh initial states; a map that matches |
| StateManagers.StateManager.FindPeerGroupState | src/WirePeep.Common/StateManager.cs:84-88 | a state is found exactly when the group has one, and it is the first such state |
| StateManagers.StateManager.FindLocationState | src/WirePeep.Common/StateManager.cs:164-168 | a state is found exactly when the location has one, and it is the first such state |
| StateManagers.StateManager.GetPeerGroupState | src/WirePeep.Common/StateManager.cs:90-102 | the group's existing state, or a fresh one that is appended only when `allowAdd` |
| StateManagers.StateManager.GetLocationState | src/WirePeep.Common/StateManager.cs:170-184 | the registry changes as `Provide` says: a new location state first ensures its group has a state, and is appended only when `allowAdd` |
| StateManagers.StateManager.NewLocationState | src/WirePeep.Common/StateManager.cs:172-181 | a location without a state gets a fresh initial state, its group a state, and is appended when `allowAdd` |
| StateManagers.StateManager.UpdatePeerGroups | src/WirePeep.Common/StateManager.cs:104-160 | the group states change as `Changed` says for each action; Replace keeps the length, Move changes nothing, and the locations and map are untouched |
| StateManagers.StateManager.AddPeerGroups | src/WirePeep.Common/StateManager.cs:108-114 | each new group gets a state unless it has one |
| StateManagers.StateManager.RemovePeerGroups | src/WirePeep.Common/StateManager.cs:116-125 | the state of each removed group, when found, is removed and the others stay in order |
| StateManagers.StateManager.ReplacePeerGroups | src/WirePeep.Common/StateManager.cs:127-138 | each old group's state is overwritten at its index by the new group's state; the length is kept |
| StateManagers.StateManager.ReplaceGroupStep | src/WirePeep.Common/StateManager.cs:130-135 | one pair of the Replace |
| StateManagers.StateManager.OverwriteGroup | src/WirePeep.Common/StateManager.cs:133-134 | the state at the old state's index becomes the new state |
| StateManagers.StateManager.ResetPeerGroups | src/WirePeep.Common/StateManager.cs:144-158 | every profile group gets a state, then the states of groups no longer in the profile are removed |
| StateManagers.StateManager.RemoveOutdatedGroups | src/WirePeep.Common/StateManager.cs:150-156 | exactly the states whose group is not current are removed, the rest keep their order |
| StateManagers.StateManager.UpdateLocations | src/WirePeep.Common/StateManager.cs:162-247 | the registry is the event's location edit followed by the map rebuild, and the map then matches the registry; Replace keeps the length, Move changes nothing |
| StateManagers.StateManager.EditLocations | src/WirePeep.Common/StateManager.cs:186-239 | the `switch` leaves the registry `LocationsChanged` describes |
| StateManagers.StateManager.AddLocations | src/WirePeep.Common/StateManager.cs:188-194 | each new location is provided a state, with its group |
| StateManagers.StateManager.RemoveLocations | src/WirePeep.Common/StateManager.cs:196-205 | the state of each removed location, when found, is removed; the group states are untouched |
| StateManagers.StateManager.ReplaceLocations | src/WirePeep.Common/StateManager.cs:207-218 | each old location's state is overwritten at its index by the new location's state, which gets its group a state; the length is kept |
| StateManagers.StateManager.ReplaceLocationStep | src/WirePeep.Common/StateManager.cs:210-215 | one pair of the Replace |
| StateManagers.StateManager.Overwrite | src/WirePeep.Common/StateManager.cs:213-214 | the state at the old state's index becomes the new state |
| StateManagers.StateManager.ResetLocations | src/WirePeep.Common/StateManager.cs:224-238 | every profile location is provided a state, then the states of locations no longer in the profile are removed |
| StateManagers.StateManager.RemoveOutdatedLocations | src/WirePeep.Common/StateManager.cs:230-236 | exactly the states whose location is not current are removed, the rest keep their order |
| StateManagers.StateManager.RebuildMap | src/WirePeep.Common/StateManager.cs:241-246 | the map matches the registry and is disjoint; only missing group states are added |
| StateManagers.StateManager.ProvideLocationGroups | src/WirePeep.Common/StateManager.cs:244 | the key selector's `GetPeerGroupState` gives each location's group a state, in location order |
| StateManagers.StateManager.ProvideGroupAt | src/WirePeep.Common/StateManager.cs:244 | one location's group gets a state |
| StateManagers.StateManager.Update | src/WirePeep.Common/StateManager.cs:54-78 | each map entry's group and locations end as `PeerGroupState.Update` leaves them; the result has one entry per map entry, with copies of the group and, position by position, of its locations |
| StateManagers.UpdateEntries | src/WirePeep.Common/StateManager.cs:63 | the `Parallel.ForEach` as a loop over disjoint entries: each entry ends as its own update says |
| StateManagers.UpdateEntry | src/WirePeep.Common/StateManager.cs:63 | one entry's update changes that entry's states and no other entry's |
| StateManagers.Publish | src/WirePeep.Common/StateManager.cs:65-75 | the result copies every entry, in order |
| StateSnapshots.Keys | src/WirePeep.Common/StateSnapshot.cs:34 | the keys are the entries' groups, in order |
| StateSnapshots.FailedChangedMembers | src/WirePeep.Common/StateSnapshot.cs:38 | the filter keeps exactly the groups whose `IsFailedChanged` is the given time |
| StateSnapshots.FailedChangedOrder | src/WirePeep.Common/StateSnapshot.cs:38 | the filter keeps the groups' order |
| StateSnapshots.FailedChangedAreKeys | src/WirePeep.Common/StateSnapshot.cs:34-38 | the failed-changed groups are among the keys and stamped at `Created`, and every key stamped at `Created` is one of them |
| StateSnapshots.StateSnapshot.constructor | src/WirePeep.Common/StateSnapshot.cs:22-26 | for a non-negative capacity, `Created` is the given time, which a `const` can never change, and the dictionary starts empty |
| StateSnapshots.StateSnapshot.AllPeerGroups | src/WirePeep.Common/StateSnapshot.cs:34 | one key per entry of the dictionary |
| StateSnapshots.StateSnapshot.Add | src/WirePeep.Common/StateSnapshot.cs:44-45 | a present key fails and changes nothing; a new key extends the dictionary by exactly that pair |
| Profiles.LoadGroups | src/WirePeep.Common/Profile.cs:81-93 | only named groups load |
| Profiles.IdMap | src/WirePeep.Common/Profile.cs:95 | `ToDictionary` succeeds exactly when the ids are distinct, and maps each id to its group |
| Profiles.LoadLocations | src/WirePeep.Common/Profile.cs:96-108 | only named locations whose group id names a loaded group load |
| Profiles.LoadedConsistent | src/WirePeep.Common/Profile.cs:79-109 | a loaded profile has distinct group ids, named groups and locations, and only locations whose group is among the groups |
| Profiles.DefaultPeerGroup | src/WirePeep.Common/Profile.cs:130-141 | the default group has the element's name, and 10 s, 5 s and 200 ms for absent attributes |
| Profiles.AddressLocationsNaming | src/WirePeep.Common/Profile.cs:146-155 | the first parsed address gets the bare name, the k-th the suffix " #k", counting parsed addresses only |
| Profiles.AddressLocationsGroup | src/WirePeep.Common/Profile.cs:137-152 | every default location belongs to its element's group |
| Profiles.AddressLocationsFresh | src/WirePeep.Common/Profile.cs:149-152 | each parsed address is a new address object, distinct from every earlier one |
| Profiles.AddedKeeps | src/WirePeep.Common/Profile.cs:113-125 | `AddLocation` skips a present address, adds the group at most once, only appends, and keeps the profile consistent, its groups without repeats and its addresses distinct |
| Profiles.AddAllKeeps | src/WirePeep.Common/Profile.cs:111-157 | the same over any sequence of additions; a non-empty sequence leaves at least one location, and every offered address is present |
| Profiles.AsWrittenAddsNewAddressObject | src/WirePeep.Common/Profile.cs:116 | with the reference comparison, a location whose address is a new object is always appended |
| Profiles.AsWrittenKeepsDuplicateAddress | src/WirePeep.Common/Profile.cs:116 | with the reference comparison, two defaults with the same address text both stay |
| Profiles.Replacement | src/WirePeep.Common/Profile.cs:223 | the replacement is the new group of the first pair naming the group, or null when none does |
| Profiles.RemoveDropsExactly | src/WirePeep.Common/Profile.cs:203-212 | a Remove deletes exactly the locations whose group was removed and keeps the rest in order |
| Profiles.ReplaceKeeps | src/WirePeep.Common/Profile.cs:214-230 | a Replace keeps each location at its index with its name, address and id, and leaves a location of an unreplaced group untouched |
| Profiles.ReplaceRebindsToFirstPair | src/WirePeep.Common/Profile.cs:223-226 | a location of a replaced group moves to the new group of the first pair naming its group |
| Profiles.ResetRehomes | src/WirePeep.Common/Profile.cs:232-256 | a Reset keeps the locations whose group id matches, in order, rebound to the current group with that id and otherwise unchanged, and leaves the profile consistent |
| Profiles.RehomeEach | src/WirePeep.Common/Profile.cs:237-248 | the Reset loop rebinds every matched location in place and collects the unmatched ones |
| Profiles.Profile.constructor | src/WirePeep.Common/Profile.cs:24-37 | a new profile holds what `Load` keeps, or, when that has no location, the defaults added to it |
| Profiles.Profile.LoadStored | src/WirePeep.Common/Profile.cs:26-29 | `Load` runs only when a settings node is given |
| Profiles.Profile.Load | src/WirePeep.Common/Profile.cs:79-109 | appends the groups that load, then the locations that load against the groups' id map |
| Profiles.Profile.LoadPeerGroups | src/WirePeep.Common/Profile.cs:81-93 | appends a group for each sub-node that loads, in order |
| Profiles.Profile.LoadLocationNodes | src/WirePeep.Common/Profile.cs:96-108 | appends a location for each sub-node that loads, in order |
| Profiles.Profile.RevertToDefaults | src/WirePeep.Common/Profile.cs:68-73 | both collections are cleared, then hold exactly the defaults as `AddLocation` keeps them |
| Profiles.Profile.LoadDefaults | src/WirePeep.Common/Profile.cs:111-157 | offers every default location, in document order, to `AddLocation` |
| Profiles.Profile.LoadDefaultElement | src/WirePeep.Common/Profile.cs:128-157 | one group element and its locations |
| Profiles.Profile.LoadDefaultGroup | src/WirePeep.Common/Profile.cs:143-157 | the locations of one group element, in order |
| Profiles.Profile.LoadDefaultLocation | src/WirePeep.Common/Profile.cs:145-156 | the parsed addresses of one location element, named with their ordinals |
| Profiles.Profile.AddLocation | src/WirePeep.Common/Profile.cs:113-125 | the collections change as `Added` says, with the corrected address comparison (by value) |
| Profiles.Profile.PeerGroupsCollectionChanged | src/WirePeep.Common/Profile.cs:197-257 | the locations change as `ChangedLocations` says for the event, the groups do not; a Reset with repeated ids throws |
| Profiles.Profile.OnRemove | src/WirePeep.Common/Profile.cs:203-212 | the locations of the removed groups are collected and removed |
| Profiles.Profile.OnReplace | src/WirePeep.Common/Profile.cs:214-230 | each location of a replaced group is rebound in place |
| Profiles.Profile.OnReset | src/WirePeep.Common/Profile.cs:232-250 | locations are rebound to the current group with their group's id, the others removed; repeated ids throw first |
| Profiles.Profile.RemoveAll | src/WirePeep.Common/Profile.cs:253-256 | each collected location is removed in turn |
| PropertyChangeNotifiers.EmitMeaning | src/WirePeep/PropertyChangeNotifier.cs:34-42 | an assignment raises at most one event, after the earlier ones, exactly when it raises, carrying the caller's name |
| PropertyChangeNotifiers.PropertyChangeNotifier.constructor | src/WirePeep/PropertyChangeNotifier.cs:18-20 | no handler, nothing raised |
| PropertyChangeNotifiers.PropertyChangeNotifier.Subscribe | src/WirePeep/PropertyChangeNotifier.cs:26 | one more handler, no event |
| PropertyChangeNotifiers.PropertyChangeNotifier.Update | src/WirePeep/PropertyChangeNotifier.cs:32-44 | the member is the value afterwards, even with no subscriber; one event with the caller's name is raised exactly when the value differed and a handler is attached |
| StatusRows.IsConnectedInvertsReply | src/WirePeep/StatusRow.cs:79 | the row's connected flag and the probe-reply mapping are inverses |
| StatusRows.ChangesExtend | src/WirePeep/StatusRow.cs:88-100 | an update's events come after those raised before |
| StatusRows.ChangesNoneIffUnchanged | src/WirePeep/StatusRow.cs:67-82 | with a handler, nothing is raised exactly when nothing but the address changed |
| StatusRows.ChangesNeverAddress | src/WirePeep/StatusRow.cs:78 | the address is assigned without its setter, so no event names it |
| StatusRows.ChangesUnsubscribed | src/WirePeep/StatusRow.cs:93-94 | without a handler nothing is raised |
| StatusRows.ReshowSilent | src/WirePeep/StatusRow.cs:67-100 | showing the same snapshots again raises nothing |
| StatusRows.StatusRow.constructor | src/WirePeep/StatusRow.cs:18-27 | null names, unset address, zero durations, false flags; no handler |
| StatusRows.StatusRow.Subscribe | src/WirePeep/StatusRow.cs:33 | one more handler, nothing else changes |
| StatusRows.StatusRow.UpdateProperty | src/WirePeep/StatusRow.cs:88-100 | with the comparer standing for `EqualityComparer<T>.Default`: the member keeps its old value when the comparer finds it equal to the new one and takes the new one otherwise; one event with the caller's name exactly when they differed and a handler is attached |
| StatusRows.StatusRow.SetGroupName | src/WirePeep/StatusRow.cs:39 | only `GroupName` changes; an event exactly when it differed |
| StatusRows.StatusRow.SetGroupFail | src/WirePeep/StatusRow.cs:41 | only `GroupFail` changes; an event exactly when it differed |
| StatusRows.StatusRow.SetGroupPoll | src/WirePeep/StatusRow.cs:43 | only `GroupPoll` changes; an event exactly when it differed |
| StatusRows.StatusRow.SetGroupWait | src/WirePeep/StatusRow.cs:45 | only `GroupWait` changes; an event exactly when it differed |
| StatusRows.StatusRow.SetIsGroupFailed | src/WirePeep/StatusRow.cs:47 | only `IsGroupFailed` changes; an event exactly when it differed |
| StatusRows.StatusRow.SetLocationName | src/WirePeep/StatusRow.cs:53 | only `LocationName` changes; an event exactly when it differed |
| StatusRows.StatusRow.SetLocationAddress | src/WirePeep/StatusRow.cs:55 | only `LocationAddress` can change, compared as `IPAddress.Equals` does (by the bytes): an address with the same bytes keeps the old object and raises nothing; otherwise the new address is stored and an event raised under a handler |
| StatusRows.StatusRow.SetIsLocationConnected | src/WirePeep/StatusRow.cs:57 | only `IsLocationConnected` changes; an event exactly when it differed |
| StatusRows.StatusRow.SetLocationRoundtripTime | src/WirePeep/StatusRow.cs:59 | only `LocationRoundtripTime` changes; an event exactly when it differed |
| StatusRows.StatusRow.SetIsLocationUpToDate | src/WirePeep/StatusRow.cs:61 | only `IsLocationUpToDate` changes; an event exactly when it differed |
| StatusRows.StatusRow.Update | src/WirePeep/StatusRow.cs:67-82 | the row shows the group's name, durations and failure flag and the location's name, address, connection and round trip; up to date exactly when the counters agree; the events are those of the changed properties, in assignment order |
| StatusRows.StatusRow.ShowGroup | src/WirePeep/StatusRow.cs:69-74 | the five group properties |
| StatusRows.StatusRow.ShowLocation | src/WirePeep/StatusRow.cs:76-81 | the five location properties, the address without an event |
| LogRows.LoggedMeaning | src/WirePeep/LogRow.cs:45-67 | the update succeeds exactly when the row has started or the flip time is set; the name is the group's, an unstarted row starts at the flip and is active, the length is the truncated time since the start, a group no longer failed ends the row, the gap is set only when the previous row has ended |
| LogRows.LoggedKeepsStart | src/WirePeep/LogRow.cs:49-53 | a row that has started keeps its start |
| LogRows.LogRow.constructor | src/WirePeep/LogRow.cs:15-21 | null name and comment, unset times, inactive; no handler |
| LogRows.LogRow.SetPeerGroupName | src/WirePeep/LogRow.cs:27 | only `PeerGroupName` changes; an event exactly when it differed |
| LogRows.LogRow.SetFailStarted | src/WirePeep/LogRow.cs:29 | only `FailStarted` changes; an event exactly when it differed |
| LogRows.LogRow.SetLength | src/WirePeep/LogRow.cs:31 | only `Length` changes; an event exactly when it differed |
| LogRows.LogRow.SetFailEnded | src/WirePeep/LogRow.cs:33 | only `FailEnded` changes; an event exactly when it differed |
| LogRows.LogRow.SetSincePrevious | src/WirePeep/LogRow.cs:35 | only `SincePrevious` changes; an event exactly when it differed |
| LogRows.LogRow.SetComment | src/WirePeep/LogRow.cs:37 | only `Comment` changes; an event exactly when it differed |
| LogRows.LogRow.SetIsActive | src/WirePeep/LogRow.cs:39 | only `IsActive` changes; an event exactly when it differed |
| LogRows.LogRow.Update | src/WirePeep/LogRow.cs:45-67 | the row's values are those `Logged` gives; it fails exactly where reading an unset flip time throws; the events raised are exactly `LogEvents`, one per assignment that changes a value under a listener, in assignment order, and only name the row's properties |
| LogRows.LogEventsExtends | src/WirePeep/LogRow.cs:45-67 | an update's events follow the earlier ones, name only row properties, and are none without a listener |
| LogRows.LogEventsReportStart | src/WirePeep/LogRow.cs:47-53 | with a listener, a successful update raises `PeerGroupName` and `FailStarted` exactly when it changes them, `IsActive` whenever it changes it, and never `Comment` |
| LogRows.LogEventsReportEnd | src/WirePeep/LogRow.cs:55-66 | with a listener, a successful update raises `Length`, `FailEnded` and `SincePrevious` exactly when it changes them |
| LogRows.LogRow.Start | src/WirePeep/LogRow.cs:49-53 | on the first update the start and the active flag, raising `StartEvents` |
| LogRows.LogRow.Finish | src/WirePeep/LogRow.cs:55-66 | the length, the end and the gap, raising `EndEvents` then `GapEvents` |
| LogRows.LogRow.End | src/WirePeep/LogRow.cs:55-61 | the length, then the end of a failure that is over, raising `EndEvents` |
| LogRows.LogRow.Gap | src/WirePeep/LogRow.cs:63-66 | the gap since the previous row ended, only when that row has an end, raising `GapEvents` |
| StatusGrids.RowKeyInjective | src/WirePeep/MainWindow.xaml.cs:78 | for group names without NUL, two keys are equal exactly when both names are |
| StatusGrids.RowKeyCollision | src/WirePeep/MainWindow.xaml.cs:78 | a group name ending in NUL makes two different rows share a key |
| StatusGrids.FilteredShows | src/WirePeep/MainWindow.xaml.cs:94-96 | after the stale rows are removed, the list shows exactly the new map's rows, each once |
| StatusGrids.Reconciles | src/WirePeep/MainWindow.xaml.cs:72-99 | once every cell is placed, removing the stale rows leaves what `Reconciled` describes |
| MainWindows.MainWindow.constructor | src/WirePeep/MainWindow.xaml.cs:45-55 | an empty grid and an empty map |
| MainWindows.MainWindow.UpdateStates | src/WirePeep/MainWindow.xaml.cs:70-100 | succeeds exactly when no key repeats; then the map has exactly the states' keys, reuses the old row of each old key and a new row for each other, each row shows its cell, and the list is the old one less the rows of the keys that went away plus the new rows in order; on failure the map is unchanged |
| MainWindows.MainWindow.PlaceAll | src/WirePeep/MainWindow.xaml.cs:72-92 | the two loops place every cell until a key comes back |
| MainWindows.MainWindow.PlaceRows | src/WirePeep/MainWindow.xaml.cs:76-91 | the inner loop places one entry's cells |
| MainWindows.MainWindow.PlaceRow | src/WirePeep/MainWindow.xaml.cs:78-90 | one cell is placed exactly when its key is new in this call |
| MainWindows.MainWindow.AppendRow | src/WirePeep/MainWindow.xaml.cs:85-87 | a fresh row showing the cell is appended to the list |
| MainWindows.MainWindow.ShowRow | src/WirePeep/MainWindow.xaml.cs:81 | the reused row shows the cell and no other row changes |
| MainWindows.MainWindow.Commit | src/WirePeep/MainWindow.xaml.cs:94-99 | the stale rows leave the list and the new map replaces the old one |
| MainWindows.MainWindow.RemoveStaleRows | src/WirePeep/MainWindow.xaml.cs:94-97 | exactly the rows of the keys that did not come back are removed, the others keep their order |
| PeerGroupDialogs.ToUShort | src/WirePeep/PeerGroupDialog.xaml.cs:164-166 | the unchecked cast keeps the low 16 bits and is the identity in range |
| PeerGroupDialogs.TruncatedSeconds | src/WirePeep/PeerGroupDialog.xaml.cs:164-166 | whole seconds, truncated toward zero |
| PeerGroupDialogs.Clamp | src/WirePeep/PeerGroupDialog.xaml.cs:233-234 | the result lies in `[min, max]` and is the value itself when that is in range |
| PeerGroupDialogs.ClampIdempotent | src/WirePeep/PeerGroupDialog.xaml.cs:233-234 | clamping twice is clamping once |
| PeerGroupDialogs.TrimMeaning | src/WirePeep/PeerGroupDialog.xaml.cs:180 | the trimmed name is a slice of the input without white space at either end |
| PeerGroupDialogs.TrimEmptyIffBlank | src/WirePeep/PeerGroupDialog.xaml.cs:180-181 | a name trims to nothing exactly when it is all white space |
| PeerGroupDialogs.TrimIdempotent | src/WirePeep/PeerGroupDialog.xaml.cs:180 | trimming twice is trimming once |
| PeerGroupDialogs.GroupOf | src/WirePeep/PeerGroupDialog.xaml.cs:219-227 | a row stands for a group exactly when it has a name (corrected argument order) |
| PeerGroupDialogs.GroupOfAsWritten | src/WirePeep/PeerGroupDialog.xaml.cs:219-227 | the same, with the timings in the order written |
| PeerGroupDialogs.RowGroupRoundTrip | src/WirePeep/PeerGroupDialog.xaml.cs:161-227 | a named row turned into a group and shown again is the same row |
| PeerGroupDialogs.GroupRowRoundTrip | src/WirePeep/PeerGroupDialog.xaml.cs:161-227 | a named group with timings in whole representable units survives being shown and recreated |
| PeerGroupDialogs.DefaultRowGroup | src/WirePeep/PeerGroupDialog.xaml.cs:135-227 | a new row, once named, stands for a group with the profile's default timings |
| PeerGroupDialogs.GroupOfAsWrittenSwapsTimings | src/WirePeep/PeerGroupDialog.xaml.cs:221-226 | as written, a new default row makes a group failing after 5 s, polling every 200 ms and waiting 10 s |
| PeerGroupDialogs.GridRow.constructor | src/WirePeep/PeerGroupDialog.xaml.cs:152-159 | Poll 5, Wait 200, Fail 10, a fresh id, no name |
| PeerGroupDialogs.GridRow.FromGroup | src/WirePeep/PeerGroupDialog.xaml.cs:161-168 | the group's name and id, its timings truncated to whole units and cast to 16 bits |
| PeerGroupDialogs.GridRow.SetName | src/WirePeep/PeerGroupDialog.xaml.cs:178-188 | stores the trimmed name; null, empty or white-space input throws and leaves the row unchanged |
| PeerGroupDialogs.GridRow.SetPoll | src/WirePeep/PeerGroupDialog.xaml.cs:191-195 | Poll is clamped into 1 to 3600 |
| PeerGroupDialogs.GridRow.SetWait | src/WirePeep/PeerGroupDialog.xaml.cs:197-201 | Wait is clamped into 1 to 2000 |
| PeerGroupDialogs.GridRow.SetFail | src/WirePeep/PeerGroupDialog.xaml.cs:203-207 | Fail is clamped into 1 to 36000 |
| PeerGroupDialogs.FindById | src/WirePeep/PeerGroupDialog.xaml.cs:58 | the index of the first group with the id, or none when no group has it |
| PeerGroupDialogs.GridRow.CreateGroup | src/WirePeep/PeerGroupDialog.xaml.cs:219-227 | a group exactly when the row has a name, with the row's name and id; as written the row's Poll, Wait and Fail land in the group's Fail, Poll and Wait, corrected each lands in its own |
| PeerGroupDialogs.Merge | src/WirePeep/PeerGroupDialog.xaml.cs:54-78 | with `asWritten` the loop and the removal as they stand leave the groups `Merged(…, true)` describes; without it the corrected merge `Merged(…, false)` |
| PeerGroupDialogs.MergeRow | src/WirePeep/PeerGroupDialog.xaml.cs:57-72 | one row, as `MergeStep` describes: with `asWritten` an existing group the row leaves unchanged is not kept, as lines 64-72 do; without it, it is kept |
| PeerGroupDialogs.MergeStepPlaces | src/WirePeep/PeerGroupDialog.xaml.cs:59-72 | a row with no matching id is appended; one with a matching id is written at that group's index and every other group is untouched |
| PeerGroupDialogs.MergedOkIffNamed | src/WirePeep/PeerGroupDialog.xaml.cs:55-57 | the merge runs to the end exactly when every row has a name |
| PeerGroupDialogs.MergedIsRows | src/WirePeep/PeerGroupDialog.xaml.cs:54-78 | the corrected merge of distinctly identified named rows leaves exactly the rows' groups |
| PeerGroupDialogs.MergedAsWrittenKeeps | src/WirePeep/PeerGroupDialog.xaml.cs:54-78 | as written, for named rows with distinct ids, the groups left are exactly those some row appended or wrote over an existing group it differed from |
| PeerGroupDialogs.MergeAsWrittenDropsUnchanged | src/WirePeep/PeerGroupDialog.xaml.cs:64-78 | as written, for any row whose group equals the existing group with its id, no group with that id is left; the corrected merge keeps the row's group |
| PeerGroupDialogs.MergeAsWrittenExample | src/WirePeep/PeerGroupDialog.xaml.cs:64-78 | one group whose timings are all 5 s, with its row untouched: as written the merge leaves no group, corrected it leaves that group |

## Left out

- The ping. It is network I/O, so it is an oracle parameter. `Pinger` is not part of this model.
- The `Find` elements of the default profile (`src/WirePeep.Common/Profile.cs:159-189`). They ping the network to find a gateway or a modem. The XML resource is unseen, so the defaults are a parameter of parsed elements. Those elements are required to be named (`Profiles.WellFormedDefaults`), so the constructor, `LoadDefaults` and `RevertToDefaults` do not model the exception an unnamed element would raise in the `PeerGroup` or `Location` constructor.
- `Parallel.ForEach`, `MaxDegreeOfParallelism` and `lock (mapLock)`. The map's groups own disjoint states, so updating them one after another is modelled and proved equivalent.
- The timer, the `Interlocked` busy guard and `Dispatcher.BeginInvoke` that drive `UpdateStates`. They are concurrency and UI threading.
- Dictionaries (the state map, the snapshot, the row map's enumeration order) are sequences of pairs in insertion order. Hash order is not modelled.
- `GroupBy`/`ToDictionary` in the map rebuild is modelled in two phases:
  - the key selector's `GetPeerGroupState` calls, in location order;
  - then the grouping.

  The states created along the way are the same. Their order relative to the grouping is not.
- Event forwarding from the profile's collections to `StateManager` and to `Profile`'s own handler. The handlers are methods called with the event value.
- Reference identity of `PeerGroup` and `Location`. It is structural equality of the records, so two equal-valued records count as one object.
- `IPAddress` parsing, formatting and `Equals`. The value comparison is on the address bytes.
- `UpdateCounter` is a C# `long`, and the round-robin index does an unchecked cast. The counter is an unbounded natural, so 64-bit overflow after 2^63 updates is not modelled.
- `TimeSpan` arithmetic on `DateTime` differences is integer milliseconds. Ticks finer than a millisecond and local/UTC conversion are not modelled.
- `LogRows.LogRow.Update`: `TruncateToSeconds` is left uninterpreted, so nothing is stated about the truncated values themselves.
- `StatusRows.StatusRow.Update`: the event order is stated through `Changes`. The WPF listeners that consume the events are not modelled.
- Grid sorting, the dialog's `ShowDialog`, the delete guard and the new-row naming (`src/WirePeep/PeerGroupDialog.xaml.cs:90-125`). They are UI.
- `MainWindows.MainWindow.UpdateStates`: when a key repeats, `Add` throws. The model then states only that the map is unchanged, not the partly updated list the exception leaves.
- `MainWindows.MainWindow.RemoveStaleRows`: the source removes the stale rows in the map's enumeration order. The model removes them as a set, in any order, which gives the same list because the rows are distinct.
- `Profiles.Profile.constructor`: it requires the loaded groups' ids to be distinct. With repeated ids, `Load`'s `ToDictionary` throws out of the constructor, and that exception is not modelled.
- `Profile.Save` and the settings-node internals. A settings node is a value; `PeerGroup.Save` and `Location.Save` are modelled for their round trips.
- StateSnapshots.StateSnapshot.constructor: it requires a non-negative `capacity`. In the source a negative capacity makes `new Dictionary(capacity)` throw `ArgumentOutOfRangeException` (`src/WirePeep.Common/StateSnapshot.cs:25`), and that exception is not modelled. No caller of the constructor is part of this model.
- Profiles.Profile.AddLocation: the class compares addresses by value, the corrected comparison of the first finding. So the constructor, `LoadDefaults` and `RevertToDefaults` keep one location per address text, where the code as written keeps every default (192.168.1.1 as both router and modem). The as-written behaviour is modelled by `AddedAsWritten` and shown by `Profiles.AsWrittenKeepsDuplicateAddress`.
- PeerGroupDialogs.GridRow.FromGroup: the source casts a `double` (`TotalSeconds`, `TotalMilliseconds`) to `ushort`, which C# leaves unspecified outside 0 to 65535. The model takes the low 16 bits (`ToUShort`), so what it states for stored timings of 65536 units or more is outside what the source defines.
- The key collision the unescaped NUL separator allows (`StatusGrids.RowKeyCollision`). It is only exhibited; `UpdateStates` treats colliding cells as a repeated key.
- Closing and saving the main window, options, alerts, the logger and the other dialogs. They are outside the core.

## Findings

| source | as written | input that shows it | evidently intended | confidence | as-written member | corrected member |
|---|---|---|---|---|---|---|
| src/WirePeep.Common/Profile.cs:116 | `l.Address == location.Address` compares `IPAddress` references, and every default address is a freshly parsed object | two default locations whose address text is the same (192.168.1.1 as both router and modem) are both added | skip a location whose address equals, by value, that of a present one, as the comment on line 115 says | not executed | Profiles.AsWrittenKeepsDuplicateAddress | Profiles.AddedKeeps |
| src/WirePeep/PeerGroupDialog.xaml.cs:221-226 | `CreateGroup` passes (Poll, Wait, Fail) to a constructor that takes (fail, poll, wait) | a new row with the defaults Poll 5, Wait 200, Fail 10 makes a group failing after 5 s, polling every 200 ms and waiting 10 s | pass Fail, Poll, Wait in the constructor's order, so a row and its group round-trip | not executed | PeerGroupDialogs.GroupOfAsWrittenSwapsTimings | PeerGroupDialogs.RowGroupRoundTrip |
| src/WirePeep/PeerGroupDialog.xaml.cs:64-78 | an existing group that its row leaves unchanged is never added to `usedGroups`, so the removal loop deletes it | a profile with one group whose timings are all 5 s, and its row untouched: the merge removes the group (`PeerGroupDialogs.MergeAsWrittenExample`) | keep every group a row stands for, edited or not | not executed | PeerGroupDialogs.MergeAsWrittenDropsUnchanged | PeerGroupDialogs.MergedIsRows |
