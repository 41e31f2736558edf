/**
 * The state manager: one `PeerGroupState` per group and one `LocationState`
 * per location of the profile, kept in step with the profile's
 * collection-change events, and the group-to-locations map that each poll
 * walks.
 */
module StateManagers {

  import opened Wrappers
  import opened Basics
  import opened Enumerations
  import opened PeerGroups
  import opened Locations
  import opened LocationStates
  import opened PeerGroupStates
  import opened StateSnapshots
  import opened CollectionChanges
  import opened Sequences
  import opened Registries
  import Profiles

  // Lists of objects keyed by a get-only property.

  /** No two different objects of `s` share a key: each key has one state. */
  predicate KeyedBy<T(==), K(==)>(s: seq<T>, key: T -> K)
  {
    forall a, b :: a in s && b in s && key(a) == key(b) ==> a == b
  }

  /** The test `p` applied to an object's key. */
  function Through<T, K>(key: T -> K, p: K -> bool): T -> bool
  {
    (x: T) => p(key(x))
  }

  /** Removing an object removes its key (the first occurrence of each). */
  lemma {:induction false} RemoveFirstKeys<T, K>(s: seq<T>, x: T, key: T -> K)
    requires KeyedBy(s, key) && x in s
    ensures Map(RemoveFirst(s, x), key) == RemoveFirst(Map(s, key), key(x))
  {
    if s[0] != x {
      assert key(s[0]) != key(x);
      assert forall y :: y in s[1..] ==> y in s;
      RemoveFirstKeys(s[1..], x, key);
      assert RemoveFirst(s, x) == [s[0]] + RemoveFirst(s[1..], x);
      assert Map(s, key) == [key(s[0])] + Map(s[1..], key);
    } else {
      assert Map(s, key)[1..] == Map(s[1..], key);
    }
  }

  /** An object is found at the index of its key. */
  lemma {:induction false} IndexOfKeys<T, K>(s: seq<T>, x: T, key: T -> K)
    requires KeyedBy(s, key) && x in s
    ensures key(x) in Map(s, key) && IndexOf(s, x) == IndexOf(Map(s, key), key(x))
  {
    assert Map(s, key)[IndexOf(s, x)] == key(x);
    if s[0] != x {
      assert key(s[0]) != key(x);
      assert forall y :: y in s[1..] ==> y in s;
      IndexOfKeys(s[1..], x, key);
      assert Map(s, key)[1..] == Map(s[1..], key);
    }
  }

  /** Filtering objects by a test on their keys filters the keys alike. */
  lemma {:induction false} FilterOutKeys<T, K>(s: seq<T>, key: T -> K, p: K -> bool)
    ensures Map(FilterOut(s, Through(key, p)), key) == FilterOut(Map(s, key), p)
  {
    if s != [] {
      FilterOutKeys(s[1..], key, p);
      assert Map(s, key)[1..] == Map(s[1..], key);
      var head := if p(key(s[0])) then [] else [s[0]];
      assert FilterOut(s, Through(key, p)) == head + FilterOut(s[1..], Through(key, p));
      assert Map(head + FilterOut(s[1..], Through(key, p)), key) == Map(head, key) + Map(FilterOut(s[1..], Through(key, p)), key);
    }
  }

  /** Keying survives appending an object that is there already or whose key is new. */
  lemma KeyedAppend<T, K>(s: seq<T>, x: T, key: T -> K)
    requires KeyedBy(s, key) && (x in s || key(x) !in Map(s, key))
    ensures KeyedBy(s + [x], key)
  {
    forall a | a in s && key(a) == key(x)
      ensures a == x
    {
      var i :| 0 <= i < |s| && s[i] == a;
      assert Map(s, key)[i] == key(x);
    }
  }

  /** Keying survives overwriting an index with such an object. */
  lemma KeyedUpdate<T, K>(s: seq<T>, i: nat, x: T, key: T -> K)
    requires i < |s| && KeyedBy(s, key) && (x in s || key(x) !in Map(s, key))
    ensures KeyedBy(s[i := x], key)
  {
    forall a | a in s[i := x]
      ensures a in s || a == x
    {
      var j :| 0 <= j < |s[i := x]| && s[i := x][j] == a;
      if j != i {
        assert s[j] == a;
      }
    }
    KeyedAppend(s, x, key);
    assert forall a :: a in s || a == x ==> a in s + [x];
  }

  /** Keying survives dropping objects. */
  lemma KeyedSub<T, K>(s: seq<T>, t: seq<T>, key: T -> K)
    requires KeyedBy(s, key) && forall y :: y in t ==> y in s
    ensures KeyedBy(t, key)
  {
  }

  /** One turn of a "remove those that fail" loop over a copy `s` of the list. */
  lemma RemoveStep<T>(current: seq<T>, s: seq<T>, i: nat, p: T -> bool)
    requires i < |s|
    ensures RemoveEach(current, Filter(s[i..], p))
            == RemoveEach(if p(s[i]) then RemoveFirst(current, s[i]) else current, Filter(s[i + 1..], p))
  {
    assert s[i..][1..] == s[i + 1..];
    var rest := Filter(s[i + 1..], p);
    assert Filter(s[i..], p) == (if p(s[i]) then [s[i]] else []) + rest;
    if p(s[i]) {
      assert ([s[i]] + rest)[0] == s[i] && ([s[i]] + rest)[1..] == rest;
    } else {
      assert [] + rest == rest;
    }
  }

  function StateGroup(s: PeerGroupState): PeerGroup
  {
    s.PeerGroup
  }

  function StateLocation(s: LocationState): Location
  {
    s.Location
  }

  /** The groups the states stand for, in order. */
  function GroupsOf(states: seq<PeerGroupState>): seq<PeerGroup>
  {
    Map(states, StateGroup)
  }

  /** The locations the states stand for, in order. */
  function LocationsOf(states: seq<LocationState>): seq<Location>
  {
    Map(states, StateLocation)
  }

  /**
   * Every state of `after` is one of `before` (with its fields, since it was
   * not touched) or a new state with the constructor's fields.
   */
  twostate predicate GroupStatesKept(before: seq<PeerGroupState>, new after: seq<PeerGroupState>)
    reads after
  {
    forall s :: s in after ==> s in before || (fresh(s) && s.Fields() == InitialGroupFields)
  }

  twostate predicate LocationStatesKept(before: seq<LocationState>, new after: seq<LocationState>)
    reads after
  {
    forall s :: s in after ==> s in before || (fresh(s) && s.Fields() == InitialFields)
  }

  /** The locations of the map entries are those of the entry's group, and no two entries share a group. */
  predicate Disjoint(entries: seq<Entry>)
  {
    && (forall i, j :: 0 <= i < j < |entries| ==> entries[i].group.PeerGroup != entries[j].group.PeerGroup)
    && (forall i, l :: 0 <= i < |entries| && l in entries[i].locations ==> l.Location.PeerGroup == entries[i].group.PeerGroup)
  }

  /** The test "belongs to `peerGroup`" on location states. */
  function InGroup(peerGroup: PeerGroup): LocationState -> bool
  {
    (l: LocationState) => l.Location.PeerGroup == peerGroup
  }

  /** The index of the entry keyed by `group`, if any: the dictionary lookup of `ToDictionary`. */
  function EntryOf(entries: seq<Entry>, group: PeerGroupState): (r: Option<nat>)
    ensures r.None? ==> forall k :: 0 <= k < |entries| ==> entries[k].group != group
    ensures r.Some? ==> r.value < |entries| && entries[r.value].group == group
  {
    FirstWhere(entries, (e: Entry) => e.group == group)
  }

  /**
   * `Locations.GroupBy(l => GetPeerGroupState(l.Location.PeerGroup)).ToDictionary(...)`
   * once every location's group has a state: each location joins the entry of its
   * group's state, a new entry opening at the group's first location.
   */
  function GroupBy(states: seq<PeerGroupState>, locations: seq<LocationState>): seq<Entry>
    requires forall l :: l in locations ==> l.Location.PeerGroup in GroupsOf(states)
    decreases |locations|
  {
    if locations == [] then []
    else
      var front := locations[..|locations| - 1];
      assert forall l :: l in front ==> l in locations;
      var entries := GroupBy(states, front);
      var l := locations[|locations| - 1];
      var key := states[IndexOf(GroupsOf(states), l.Location.PeerGroup)];
      match EntryOf(entries, key)
      case Some(k) => entries[k := Entry(key, entries[k].locations + [l])]
      case None => entries + [Entry(key, [l])]
  }

  /**
   * The map matches the registry: each key is the registry's state of its
   * group, no two keys share a group, each value lists the group's locations
   * in `Locations` order (and is not empty), and every location's group is a key.
   */
  predicate MapMatches(states: seq<PeerGroupState>, locations: seq<LocationState>, entries: seq<Entry>)
  {
    && (forall k :: 0 <= k < |entries| ==> entries[k].group in states)
    && (forall i, j :: 0 <= i < j < |entries| ==> entries[i].group.PeerGroup != entries[j].group.PeerGroup)
    && (forall k :: 0 <= k < |entries| ==>
          entries[k].locations == Filter(locations, InGroup(entries[k].group.PeerGroup)) && entries[k].locations != [])
    && (forall l :: l in locations ==> exists k :: 0 <= k < |entries| && entries[k].group.PeerGroup == l.Location.PeerGroup)
  }

  lemma {:induction false} GroupByMatches(states: seq<PeerGroupState>, locations: seq<LocationState>)
    requires KeyedBy(states, StateGroup)
    requires forall l :: l in locations ==> l.Location.PeerGroup in GroupsOf(states)
    ensures MapMatches(states, locations, GroupBy(states, locations))
    decreases |locations|
  {
    if locations != [] {
      var n := |locations| - 1;
      var front := locations[..n];
      assert forall l :: l in front ==> l in locations;
      GroupByMatches(states, front);
      GroupByStep(states, locations, GroupBy(states, front));
    }
  }

  lemma GroupByStep(states: seq<PeerGroupState>, locations: seq<LocationState>, entries: seq<Entry>)
    requires KeyedBy(states, StateGroup) && locations != []
    requires forall l :: l in locations ==> l.Location.PeerGroup in GroupsOf(states)
    requires MapMatches(states, locations[..|locations| - 1], entries)
    requires entries == GroupBy(states, locations[..|locations| - 1])
    ensures MapMatches(states, locations, GroupBy(states, locations))
  {
    var l := locations[|locations| - 1];
    var key := states[IndexOf(GroupsOf(states), l.Location.PeerGroup)];
    match EntryOf(entries, key) {
      case Some(k) =>
        GroupJoins(states, locations, entries, key, k);
      case None =>
        forall k | 0 <= k < |entries| && entries[k].group.PeerGroup == key.PeerGroup
          ensures entries[k].group == key
        {
        }
        GroupOpens(states, locations, entries, key);
    }
  }

  /** The filter of every group over one more location. */
  lemma FilterGroupsStep(locations: seq<LocationState>)
    requires locations != []
    ensures forall p: PeerGroup :: Filter(locations, InGroup(p))
              == Filter(locations[..|locations| - 1], InGroup(p)) + (if p == locations[|locations| - 1].Location.PeerGroup then [locations[|locations| - 1]] else [])
  {
    var n := |locations| - 1;
    assert locations[..n + 1] == locations;
    forall p: PeerGroup
      ensures Filter(locations, InGroup(p)) == Filter(locations[..n], InGroup(p)) + (if p == locations[n].Location.PeerGroup then [locations[n]] else [])
    {
      FilterPrefixStep(locations, n, InGroup(p));
    }
  }

  /** The last location joins the entry its group already has. */
  lemma GroupJoins(states: seq<PeerGroupState>, locations: seq<LocationState>, entries: seq<Entry>, key: PeerGroupState, k: nat)
    requires locations != [] && key in states && key.PeerGroup == locations[|locations| - 1].Location.PeerGroup
    requires MapMatches(states, locations[..|locations| - 1], entries)
    requires k < |entries| && entries[k].group == key
    ensures MapMatches(states, locations, entries[k := Entry(key, entries[k].locations + [locations[|locations| - 1]])])
  {
    var n := |locations| - 1;
    var r := entries[k := Entry(key, entries[k].locations + [locations[n]])];
    assert locations[..n + 1] == locations;
    forall j | 0 <= j < |r|
      ensures r[j].locations == Filter(locations, InGroup(r[j].group.PeerGroup)) && r[j].locations != []
    {
      FilterPrefixStep(locations, n, InGroup(r[j].group.PeerGroup));
    }
    forall x | x in locations
      ensures exists j :: 0 <= j < |r| && r[j].group.PeerGroup == x.Location.PeerGroup
    {
      if x in locations[..n] {
        var j :| 0 <= j < |entries| && entries[j].group.PeerGroup == x.Location.PeerGroup;
        assert r[j].group == entries[j].group;
      } else {
        assert locations == locations[..n] + [locations[n]];
        assert r[k].group.PeerGroup == x.Location.PeerGroup;
      }
    }
  }

  /** Locations of other groups only leave nothing for `g`. */
  lemma {:induction false} NoneInGroup(locations: seq<LocationState>, g: PeerGroup)
    requires forall x :: x in locations ==> !InGroup(g)(x)
    ensures Filter(locations, InGroup(g)) == []
  {
    if locations != [] {
      assert forall x :: x in locations[1..] ==> x in locations;
      NoneInGroup(locations[1..], g);
    }
  }

  /** The last location opens the entry of a group that had none. */
  lemma GroupOpens(states: seq<PeerGroupState>, locations: seq<LocationState>, entries: seq<Entry>, key: PeerGroupState)
    requires locations != [] && key in states && key.PeerGroup == locations[|locations| - 1].Location.PeerGroup
    requires MapMatches(states, locations[..|locations| - 1], entries)
    requires forall k :: 0 <= k < |entries| ==> entries[k].group.PeerGroup != key.PeerGroup
    ensures MapMatches(states, locations, entries + [Entry(key, [locations[|locations| - 1]])])
  {
    var n := |locations| - 1;
    var g := key.PeerGroup;
    var front := locations[..n];
    var r := entries + [Entry(key, [locations[n]])];
    FilterGroupsStep(locations);
    forall x | x in front
      ensures !InGroup(g)(x)
    {
      var j :| 0 <= j < |entries| && entries[j].group.PeerGroup == x.Location.PeerGroup;
    }
    NoneInGroup(front, g);
    assert Filter(locations, InGroup(g)) == Filter(front, InGroup(g)) + [locations[n]];
    assert Filter(locations, InGroup(g)) == [locations[n]];
    forall k | 0 <= k < |r|
      ensures r[k].locations == Filter(locations, InGroup(r[k].group.PeerGroup))
    {
      if k < |entries| {
        assert r[k] == entries[k];
      }
    }
    forall x | x in locations
      ensures exists j :: 0 <= j < |r| && r[j].group.PeerGroup == x.Location.PeerGroup
    {
      if x in front {
        var j :| 0 <= j < |entries| && entries[j].group.PeerGroup == x.Location.PeerGroup;
        assert r[j].group == entries[j].group;
      } else {
        assert locations == front + [locations[n]];
        assert r[|entries|].group.PeerGroup == x.Location.PeerGroup;
      }
    }
  }

  /** A map that matches the registry has disjoint entries. */
  lemma MatchingIsDisjoint(states: seq<PeerGroupState>, locations: seq<LocationState>, entries: seq<Entry>)
    requires MapMatches(states, locations, entries)
    ensures Disjoint(entries)
  {
    forall i, l | 0 <= i < |entries| && l in entries[i].locations
      ensures l.Location.PeerGroup == entries[i].group.PeerGroup
    {
      FilterMembers(locations, InGroup(entries[i].group.PeerGroup));
    }
  }

  /** What `PeerGroupState.Update` makes of one map entry, from the current fields. */
  function Outcome(e: Entry, utcNow: Time, simulateConnection: Option<ConnectionState>, probe: Probe): GroupOutcome
    reads e.group, e.locations
  {
    GroupUpdate(e.group.PeerGroup, e.group.Fields(), e.locations, FieldsOf(e.locations), utcNow, simulateConnection, probe)
  }

  /** One key/value pair of the dictionary `Update` returns: copies of a group state and of its location states. */
  datatype Published = Published(group: GroupRecord, locations: seq<LocationRecord>)

  /** `Select(l => l.ShallowCopy()).ToList()`. */
  function Copies(locations: seq<LocationState>): (r: seq<LocationRecord>)
    reads locations
    ensures |r| == |locations|
    ensures forall i :: 0 <= i < |locations| ==> r[i] == LocationRecord(locations[i].Location, locations[i].Fields())
  {
    if locations == [] then [] else [locations[0].ShallowCopy()] + Copies(locations[1..])
  }

  class StateManager {

    const profile: Profiles.Profile

    var PeerGroups: seq<PeerGroupState>
    var Locations: seq<LocationState>

    /** The dictionary, as its pairs in enumeration order. */
    var peerGroupToLocationsMap: seq<Entry>

    /** One state per group and per location (a state may sit at several indices), and a map whose entries do not overlap. */
    predicate Valid()
      reads this
    {
      && KeyedBy(PeerGroups, StateGroup)
      && KeyedBy(Locations, StateLocation)
      && Disjoint(peerGroupToLocationsMap)
    }

    /** The groups and locations that have states. */
    function View(): Registry
      reads this
    {
      Registry(GroupsOf(PeerGroups), LocationsOf(Locations))
    }

    /**
     * Subscribes to the profile's collections (the handlers forward their
     * events to `UpdatePeerGroups` and `UpdateLocations`) and resets both.
     */
    constructor (profile: Profiles.Profile)
      ensures this.profile == profile && Valid()
      ensures View() == Regrouped(LocationsChanged(Registry(Changed([], Reset, profile.PeerGroups), []), Reset, profile.Locations))
      ensures MapMatches(PeerGroups, Locations, peerGroupToLocationsMap)
      ensures forall s :: s in PeerGroups ==> fresh(s) && s.Fields() == InitialGroupFields
      ensures forall s :: s in Locations ==> fresh(s) && s.Fields() == InitialFields
    {
      this.profile := profile;
      PeerGroups := [];
      Locations := [];
      peerGroupToLocationsMap := [];
      new;
      UpdatePeerGroups(Reset);
      UpdateLocations(Reset);
    }

    /** `FindPeerGroupState`: the first state of `peerGroup`; None stands for null. */
    function FindPeerGroupState(peerGroup: PeerGroup): (state: Option<PeerGroupState>)
      reads this
      ensures state.Some? <==> peerGroup in GroupsOf(PeerGroups)
      ensures state.Some? ==> state.value.PeerGroup == peerGroup && state.value in PeerGroups
      ensures state.Some? ==> state.value == PeerGroups[IndexOf(GroupsOf(PeerGroups), peerGroup)]
    {
      match FirstWhere(PeerGroups, (s: PeerGroupState) => s.PeerGroup == peerGroup)
      case None => None
      case Some(i) => Some(PeerGroups[i])
    }

    /** The local `FindLocationState` of `UpdateLocations`. */
    function FindLocationState(location: Location): (state: Option<LocationState>)
      reads this
      ensures state.Some? <==> location in LocationsOf(Locations)
      ensures state.Some? ==> state.value.Location == location && state.value in Locations
      ensures state.Some? ==> state.value == Locations[IndexOf(LocationsOf(Locations), location)]
    {
      match FirstWhere(Locations, (s: LocationState) => s.Location == location)
      case None => None
      case Some(i) => Some(Locations[i])
    }

    /** `GetPeerGroupState`: the existing state, or a new one, appended only when `allowAdd`. */
    method GetPeerGroupState(peerGroup: PeerGroup, allowAdd: bool) returns (result: PeerGroupState)
      requires KeyedBy(PeerGroups, StateGroup)
      modifies this
      ensures KeyedBy(PeerGroups, StateGroup)
      ensures result.PeerGroup == peerGroup
      ensures GroupsOf(PeerGroups) == if allowAdd then WithItem(old(GroupsOf(PeerGroups)), peerGroup) else old(GroupsOf(PeerGroups))
      ensures peerGroup in old(GroupsOf(PeerGroups)) ==> result in old(PeerGroups) && PeerGroups == old(PeerGroups)
      ensures peerGroup !in old(GroupsOf(PeerGroups)) ==>
                fresh(result) && result.Fields() == InitialGroupFields
                && PeerGroups == old(PeerGroups) + (if allowAdd then [result] else [])
      ensures Locations == old(Locations) && peerGroupToLocationsMap == old(peerGroupToLocationsMap)
    {
      var found := FindPeerGroupState(peerGroup);
      if found.Some? {
        result := found.value;
      } else {
        result := new PeerGroupState(peerGroup);
        if allowAdd {
          KeyedAppend(PeerGroups, result, StateGroup);
          PeerGroups := PeerGroups + [result];
        }
      }
    }

    /** The local `GetLocationState`: a new location state first makes sure its group has a state. */
    method GetLocationState(location: Location, allowAdd: bool) returns (result: LocationState)
      requires KeyedBy(PeerGroups, StateGroup) && KeyedBy(Locations, StateLocation)
      modifies this
      ensures KeyedBy(PeerGroups, StateGroup) && KeyedBy(Locations, StateLocation)
      ensures result.Location == location
      ensures View() == Provide(old(View()), location, allowAdd)
      ensures location in old(LocationsOf(Locations)) ==> result in old(Locations) && PeerGroups == old(PeerGroups) && Locations == old(Locations)
      ensures location !in old(LocationsOf(Locations)) ==>
                fresh(result) && result.Fields() == InitialFields
                && Locations == old(Locations) + (if allowAdd then [result] else [])
      ensures GroupStatesKept(old(PeerGroups), PeerGroups)
      ensures peerGroupToLocationsMap == old(peerGroupToLocationsMap)
    {
      var found := FindLocationState(location);
      if found.Some? {
        result := found.value;
      } else {
        result := NewLocationState(location, allowAdd);
      }
    }

    /** The branch of `GetLocationState` for a location without a state. */
    method NewLocationState(location: Location, allowAdd: bool) returns (result: LocationState)
      requires KeyedBy(PeerGroups, StateGroup) && KeyedBy(Locations, StateLocation)
      requires location !in LocationsOf(Locations)
      modifies this
      ensures KeyedBy(PeerGroups, StateGroup) && KeyedBy(Locations, StateLocation)
      ensures result.Location == location
      ensures View() == Provide(old(View()), location, allowAdd)
      ensures fresh(result) && result.Fields() == InitialFields
      ensures Locations == old(Locations) + (if allowAdd then [result] else [])
      ensures GroupStatesKept(old(PeerGroups), PeerGroups)
      ensures peerGroupToLocationsMap == old(peerGroupToLocationsMap)
    {
      var _ := GetPeerGroupState(location.PeerGroup, true);
      result := new LocationState(location);
      if allowAdd {
        KeyedAppend(Locations, result, StateLocation);
        Locations := Locations + [result];
      }
    }

    /** The handler for the profile's group events. */
    method UpdatePeerGroups(e: CollectionChange<PeerGroup>)
      requires Valid()
      modifies this
      ensures Valid()
      ensures GroupsOf(PeerGroups) == Changed(old(GroupsOf(PeerGroups)), e, profile.PeerGroups)
      ensures GroupStatesKept(old(PeerGroups), PeerGroups)
      ensures e.Replace? ==> |PeerGroups| == old(|PeerGroups|)
      ensures e.Move? ==> PeerGroups == old(PeerGroups)
      ensures Locations == old(Locations) && peerGroupToLocationsMap == old(peerGroupToLocationsMap)
    {
      match e {
        case Add(newItems) => AddPeerGroups(newItems);
        case Remove(oldItems) => RemovePeerGroups(oldItems);
        case Replace(oldItems, newItems) => ReplacePeerGroups(oldItems, newItems);
        case Move =>
        case Reset => ResetPeerGroups();
      }
    }

    /** The Add case, and the first loop of the Reset case. */
    method AddPeerGroups(newItems: seq<PeerGroup>)
      requires KeyedBy(PeerGroups, StateGroup)
      modifies this
      ensures KeyedBy(PeerGroups, StateGroup)
      ensures GroupsOf(PeerGroups) == WithItems(old(GroupsOf(PeerGroups)), newItems)
      ensures GroupStatesKept(old(PeerGroups), PeerGroups)
      ensures Locations == old(Locations) && peerGroupToLocationsMap == old(peerGroupToLocationsMap)
    {
      var i := 0;
      while i < |newItems|
        invariant 0 <= i <= |newItems|
        invariant KeyedBy(PeerGroups, StateGroup)
        invariant GroupsOf(PeerGroups) == WithItems(old(GroupsOf(PeerGroups)), newItems[..i])
        invariant GroupStatesKept(old(PeerGroups), PeerGroups)
        invariant Locations == old(Locations) && peerGroupToLocationsMap == old(peerGroupToLocationsMap)
      {
        var _ := GetPeerGroupState(newItems[i], true);
        assert newItems[..i + 1][..i] == newItems[..i];
        i := i + 1;
      }
      assert newItems[..i] == newItems;
    }

    /** The Remove case: the state of each removed group, when found, is removed. */
    method RemovePeerGroups(oldItems: seq<PeerGroup>)
      requires KeyedBy(PeerGroups, StateGroup)
      modifies this
      ensures KeyedBy(PeerGroups, StateGroup)
      ensures GroupsOf(PeerGroups) == RemoveEach(old(GroupsOf(PeerGroups)), oldItems)
      ensures forall s :: s in PeerGroups ==> s in old(PeerGroups)
      ensures Locations == old(Locations) && peerGroupToLocationsMap == old(peerGroupToLocationsMap)
    {
      var i := 0;
      while i < |oldItems|
        invariant 0 <= i <= |oldItems|
        invariant KeyedBy(PeerGroups, StateGroup)
        invariant RemoveEach(GroupsOf(PeerGroups), oldItems[i..]) == RemoveEach(old(GroupsOf(PeerGroups)), oldItems)
        invariant forall s :: s in PeerGroups ==> s in old(PeerGroups)
        invariant Locations == old(Locations) && peerGroupToLocationsMap == old(peerGroupToLocationsMap)
      {
        assert oldItems[i..][1..] == oldItems[i + 1..];
        var state := FindPeerGroupState(oldItems[i]);
        if state.Some? {
          RemoveFirstKeys(PeerGroups, state.value, StateGroup);
          KeyedSub(PeerGroups, RemoveFirst(PeerGroups, state.value), StateGroup);
          PeerGroups := RemoveFirst(PeerGroups, state.value);
        }
        i := i + 1;
      }
    }

    /** The Replace case: the old group's state is overwritten, at its index, by the new group's state. */
    method ReplacePeerGroups(oldItems: seq<PeerGroup>, newItems: seq<PeerGroup>)
      requires KeyedBy(PeerGroups, StateGroup)
      modifies this
      ensures KeyedBy(PeerGroups, StateGroup)
      ensures GroupsOf(PeerGroups) == Replaced(old(GroupsOf(PeerGroups)), Zip(oldItems, newItems))
      ensures GroupStatesKept(old(PeerGroups), PeerGroups)
      ensures |PeerGroups| == old(|PeerGroups|)
      ensures Locations == old(Locations) && peerGroupToLocationsMap == old(peerGroupToLocationsMap)
    {
      var pairs := Zip(oldItems, newItems);
      var i := 0;
      while i < |pairs|
        invariant 0 <= i <= |pairs|
        invariant KeyedBy(PeerGroups, StateGroup)
        invariant GroupsOf(PeerGroups) == Replaced(old(GroupsOf(PeerGroups)), pairs[..i])
        invariant GroupStatesKept(old(PeerGroups), PeerGroups)
        invariant Locations == old(Locations) && peerGroupToLocationsMap == old(peerGroupToLocationsMap)
      {
        assert pairs[..i + 1][..i] == pairs[..i];
        ReplaceGroupStep(pairs[i]);
        i := i + 1;
      }
      assert pairs[..i] == pairs;
    }

    /** One pair of the Replace case. */
    method ReplaceGroupStep(pair: (PeerGroup, PeerGroup))
      requires KeyedBy(PeerGroups, StateGroup)
      modifies this
      ensures KeyedBy(PeerGroups, StateGroup)
      ensures GroupsOf(PeerGroups) == Replaced(old(GroupsOf(PeerGroups)), [pair])
      ensures GroupStatesKept(old(PeerGroups), PeerGroups)
      ensures Locations == old(Locations) && peerGroupToLocationsMap == old(peerGroupToLocationsMap)
    {
      assert [pair][..0] == [];
      var oldState := FindPeerGroupState(pair.0);
      if oldState.Some? {
        var newState := GetPeerGroupState(pair.1, false);
        OverwriteGroup(oldState.value, newState);
      }
    }

    /** `PeerGroups[PeerGroups.IndexOf(oldState)] = newState`. */
    method OverwriteGroup(oldState: PeerGroupState, newState: PeerGroupState)
      requires KeyedBy(PeerGroups, StateGroup) && oldState in PeerGroups
      requires newState in PeerGroups || newState.PeerGroup !in GroupsOf(PeerGroups)
      modifies this
      ensures KeyedBy(PeerGroups, StateGroup)
      ensures PeerGroups == old(PeerGroups)[IndexOf(old(PeerGroups), oldState) := newState]
      ensures GroupsOf(PeerGroups) == old(GroupsOf(PeerGroups))[IndexOf(old(GroupsOf(PeerGroups)), oldState.PeerGroup) := newState.PeerGroup]
      ensures Locations == old(Locations) && peerGroupToLocationsMap == old(peerGroupToLocationsMap)
    {
      var index := IndexOf(PeerGroups, oldState);
      IndexOfKeys(PeerGroups, oldState, StateGroup);
      KeyedUpdate(PeerGroups, index, newState, StateGroup);
      assert GroupsOf(PeerGroups[index := newState]) == GroupsOf(PeerGroups)[index := newState.PeerGroup];
      PeerGroups := PeerGroups[index := newState];
    }

    /** The Reset case: a state for each profile group, then the states of groups no longer in the profile removed. */
    method ResetPeerGroups()
      requires KeyedBy(PeerGroups, StateGroup)
      modifies this
      ensures KeyedBy(PeerGroups, StateGroup)
      ensures GroupsOf(PeerGroups) == Reconciled(old(GroupsOf(PeerGroups)), profile.PeerGroups)
      ensures GroupStatesKept(old(PeerGroups), PeerGroups)
      ensures Locations == old(Locations) && peerGroupToLocationsMap == old(peerGroupToLocationsMap)
    {
      var current := profile.PeerGroups;
      AddPeerGroups(current);
      ghost var added := PeerGroups;
      RemoveOutdatedGroups(current);
      FilterOutKeys(added, StateGroup, NotIn(current));
      FilterOutMembers(added, Through(StateGroup, NotIn(current)));
    }

    /** The second loop of the Reset case, over a copy of the list. */
    method RemoveOutdatedGroups(current: seq<PeerGroup>)
      requires KeyedBy(PeerGroups, StateGroup)
      modifies this
      ensures KeyedBy(PeerGroups, StateGroup)
      ensures PeerGroups == FilterOut(old(PeerGroups), Through(StateGroup, NotIn(current)))
      ensures Locations == old(Locations) && peerGroupToLocationsMap == old(peerGroupToLocationsMap)
    {
      var snapshot := PeerGroups;
      ghost var outdated := Through(StateGroup, NotIn(current));
      var i := 0;
      while i < |snapshot|
        invariant 0 <= i <= |snapshot|
        invariant RemoveEach(PeerGroups, Filter(snapshot[i..], outdated)) == RemoveEach(snapshot, Filter(snapshot, outdated))
        invariant Locations == old(Locations) && peerGroupToLocationsMap == old(peerGroupToLocationsMap)
      {
        var state := snapshot[i];
        RemoveStep(PeerGroups, snapshot, i, outdated);
        if state.PeerGroup !in current {
          PeerGroups := RemoveFirst(PeerGroups, state);
        }
        i := i + 1;
      }
      RemoveFilteredIsFilterOut(snapshot, outdated);
      FilterOutMembers(snapshot, outdated);
      KeyedSub(snapshot, PeerGroups, StateGroup);
    }

    /** The handler for the profile's location events; it ends by rebuilding the map. */
    method UpdateLocations(e: CollectionChange<Location>)
      requires Valid()
      modifies this
      ensures Valid()
      ensures View() == Regrouped(LocationsChanged(old(View()), e, profile.Locations))
      ensures MapMatches(PeerGroups, Locations, peerGroupToLocationsMap)
      ensures GroupStatesKept(old(PeerGroups), PeerGroups)
      ensures LocationStatesKept(old(Locations), Locations)
      ensures e.Replace? ==> |Locations| == old(|Locations|)
      ensures e.Move? ==> Locations == old(Locations)
    {
      EditLocations(e);
      RebuildMap();
    }

    /** The `switch` of `UpdateLocations`: the edit the event makes to the location states. */
    method EditLocations(e: CollectionChange<Location>)
      requires Valid()
      modifies this
      ensures KeyedBy(PeerGroups, StateGroup) && KeyedBy(Locations, StateLocation)
      ensures View() == LocationsChanged(old(View()), e, profile.Locations)
      ensures GroupStatesKept(old(PeerGroups), PeerGroups)
      ensures LocationStatesKept(old(Locations), Locations)
      ensures e.Replace? ==> |Locations| == old(|Locations|)
      ensures e.Move? ==> Locations == old(Locations)
    {
      match e {
        case Add(newItems) => AddLocations(newItems);
        case Remove(oldItems) => RemoveLocations(oldItems);
        case Replace(oldItems, newItems) => ReplaceLocations(oldItems, newItems);
        case Move =>
        case Reset => ResetLocations();
      }
    }

    /** The Add case, and the first loop of the Reset case. */
    method AddLocations(newItems: seq<Location>)
      requires KeyedBy(PeerGroups, StateGroup) && KeyedBy(Locations, StateLocation)
      modifies this
      ensures KeyedBy(PeerGroups, StateGroup) && KeyedBy(Locations, StateLocation)
      ensures View() == ProvideAll(old(View()), newItems)
      ensures GroupStatesKept(old(PeerGroups), PeerGroups)
      ensures LocationStatesKept(old(Locations), Locations)
    {
      var i := 0;
      while i < |newItems|
        invariant 0 <= i <= |newItems|
        invariant KeyedBy(PeerGroups, StateGroup) && KeyedBy(Locations, StateLocation)
        invariant View() == ProvideAll(old(View()), newItems[..i])
        invariant GroupStatesKept(old(PeerGroups), PeerGroups)
        invariant LocationStatesKept(old(Locations), Locations)
      {
        var _ := GetLocationState(newItems[i], true);
        assert newItems[..i + 1][..i] == newItems[..i];
        i := i + 1;
      }
      assert newItems[..i] == newItems;
    }

    /** The Remove case: the state of each removed location, when found, is removed. */
    method RemoveLocations(oldItems: seq<Location>)
      requires KeyedBy(Locations, StateLocation)
      modifies this
      ensures KeyedBy(Locations, StateLocation)
      ensures LocationsOf(Locations) == RemoveEach(old(LocationsOf(Locations)), oldItems)
      ensures forall s :: s in Locations ==> s in old(Locations)
      ensures PeerGroups == old(PeerGroups)
    {
      var i := 0;
      while i < |oldItems|
        invariant 0 <= i <= |oldItems|
        invariant KeyedBy(Locations, StateLocation)
        invariant RemoveEach(LocationsOf(Locations), oldItems[i..]) == RemoveEach(old(LocationsOf(Locations)), oldItems)
        invariant forall s :: s in Locations ==> s in old(Locations)
        invariant PeerGroups == old(PeerGroups)
      {
        assert oldItems[i..][1..] == oldItems[i + 1..];
        var state := FindLocationState(oldItems[i]);
        if state.Some? {
          RemoveFirstKeys(Locations, state.value, StateLocation);
          KeyedSub(Locations, RemoveFirst(Locations, state.value), StateLocation);
          Locations := RemoveFirst(Locations, state.value);
        }
        i := i + 1;
      }
    }

    /** The Replace case: the old location's state is overwritten, at its index, by the new location's state. */
    method ReplaceLocations(oldItems: seq<Location>, newItems: seq<Location>)
      requires KeyedBy(PeerGroups, StateGroup) && KeyedBy(Locations, StateLocation)
      modifies this
      ensures KeyedBy(PeerGroups, StateGroup) && KeyedBy(Locations, StateLocation)
      ensures View() == ProvideReplaced(old(View()), Zip(oldItems, newItems))
      ensures GroupStatesKept(old(PeerGroups), PeerGroups)
      ensures LocationStatesKept(old(Locations), Locations)
      ensures |Locations| == old(|Locations|)
    {
      var pairs := Zip(oldItems, newItems);
      var i := 0;
      while i < |pairs|
        invariant 0 <= i <= |pairs|
        invariant KeyedBy(PeerGroups, StateGroup) && KeyedBy(Locations, StateLocation)
        invariant View() == ProvideReplaced(old(View()), pairs[..i])
        invariant GroupStatesKept(old(PeerGroups), PeerGroups)
        invariant LocationStatesKept(old(Locations), Locations)
        invariant |Locations| == old(|Locations|)
      {
        assert pairs[..i + 1][..i] == pairs[..i];
        ReplaceLocationStep(pairs[i]);
        i := i + 1;
      }
      assert pairs[..i] == pairs;
    }

    /** One pair of the Replace case. */
    method ReplaceLocationStep(pair: (Location, Location))
      requires KeyedBy(PeerGroups, StateGroup) && KeyedBy(Locations, StateLocation)
      modifies this
      ensures KeyedBy(PeerGroups, StateGroup) && KeyedBy(Locations, StateLocation)
      ensures View() == ProvideReplaced(old(View()), [pair])
      ensures GroupStatesKept(old(PeerGroups), PeerGroups)
      ensures LocationStatesKept(old(Locations), Locations)
      ensures |Locations| == old(|Locations|)
    {
      assert [pair][..0] == [];
      var oldState := FindLocationState(pair.0);
      if oldState.Some? {
        var newState := GetLocationState(pair.1, false);
        Overwrite(oldState.value, newState);
      }
    }

    /** `Locations[Locations.IndexOf(oldState)] = newState`. */
    method Overwrite(oldState: LocationState, newState: LocationState)
      requires KeyedBy(Locations, StateLocation) && oldState in Locations
      requires newState in Locations || newState.Location !in LocationsOf(Locations)
      modifies this
      ensures KeyedBy(Locations, StateLocation)
      ensures Locations == old(Locations)[IndexOf(old(Locations), oldState) := newState]
      ensures LocationsOf(Locations) == old(LocationsOf(Locations))[IndexOf(old(LocationsOf(Locations)), oldState.Location) := newState.Location]
      ensures PeerGroups == old(PeerGroups) && peerGroupToLocationsMap == old(peerGroupToLocationsMap)
    {
      var index := IndexOf(Locations, oldState);
      IndexOfKeys(Locations, oldState, StateLocation);
      KeyedUpdate(Locations, index, newState, StateLocation);
      assert LocationsOf(Locations[index := newState]) == LocationsOf(Locations)[index := newState.Location];
      Locations := Locations[index := newState];
    }

    /** The Reset case: a state for each profile location, then the states of locations no longer in the profile removed. */
    method ResetLocations()
      requires KeyedBy(PeerGroups, StateGroup) && KeyedBy(Locations, StateLocation)
      modifies this
      ensures KeyedBy(PeerGroups, StateGroup) && KeyedBy(Locations, StateLocation)
      ensures View() == LocationsChanged(old(View()), Reset, profile.Locations)
      ensures GroupStatesKept(old(PeerGroups), PeerGroups)
      ensures LocationStatesKept(old(Locations), Locations)
    {
      var current := profile.Locations;
      AddLocations(current);
      ghost var added := Locations;
      ghost var provided := View();
      RemoveOutdatedLocations(current);
      FilterOutKeys(added, StateLocation, NotIn(current));
      FilterOutMembers(added, Through(StateLocation, NotIn(current)));
      assert View() == provided.(locations := FilterOut(provided.locations, NotIn(current)));
    }

    /** The second loop of the Reset case, over a copy of the list. */
    method RemoveOutdatedLocations(current: seq<Location>)
      requires KeyedBy(Locations, StateLocation)
      modifies this
      ensures KeyedBy(Locations, StateLocation)
      ensures Locations == FilterOut(old(Locations), Through(StateLocation, NotIn(current)))
      ensures PeerGroups == old(PeerGroups)
    {
      var snapshot := Locations;
      ghost var outdated := Through(StateLocation, NotIn(current));
      var i := 0;
      while i < |snapshot|
        invariant 0 <= i <= |snapshot|
        invariant RemoveEach(Locations, Filter(snapshot[i..], outdated)) == RemoveEach(snapshot, Filter(snapshot, outdated))
        invariant PeerGroups == old(PeerGroups)
      {
        var state := snapshot[i];
        RemoveStep(Locations, snapshot, i, outdated);
        if state.Location !in current {
          Locations := RemoveFirst(Locations, state);
        }
        i := i + 1;
      }
      RemoveFilteredIsFilterOut(snapshot, outdated);
      FilterOutMembers(snapshot, outdated);
      KeyedSub(snapshot, Locations, StateLocation);
    }

    /**
     * The map rebuild: the key selector's `GetPeerGroupState` for each
     * location, in order, then the grouping.
     */
    method RebuildMap()
      requires KeyedBy(PeerGroups, StateGroup)
      modifies this
      ensures KeyedBy(PeerGroups, StateGroup)
      ensures View() == Regrouped(old(View()))
      ensures Locations == old(Locations)
      ensures GroupStatesKept(old(PeerGroups), PeerGroups)
      ensures MapMatches(PeerGroups, Locations, peerGroupToLocationsMap)
      ensures Disjoint(peerGroupToLocationsMap)
    {
      ProvideLocationGroups();
      RegroupedCovers(Registry(old(GroupsOf(PeerGroups)), LocationsOf(Locations)));
      LocationGroupsCovered(PeerGroups, Locations);
      GroupByMatches(PeerGroups, Locations);
      peerGroupToLocationsMap := GroupBy(PeerGroups, Locations);
      MatchingIsDisjoint(PeerGroups, Locations, peerGroupToLocationsMap);
    }

    /** The key selector's `GetPeerGroupState` for each location, in order. */
    method ProvideLocationGroups()
      requires KeyedBy(PeerGroups, StateGroup)
      modifies this
      ensures KeyedBy(PeerGroups, StateGroup)
      ensures GroupsOf(PeerGroups) == WithItems(old(GroupsOf(PeerGroups)), LocationGroups(LocationsOf(Locations)))
      ensures Locations == old(Locations)
      ensures GroupStatesKept(old(PeerGroups), PeerGroups)
    {
      ghost var targets := LocationGroups(LocationsOf(Locations));
      var i := 0;
      while i < |Locations|
        invariant 0 <= i <= |Locations| == |targets|
        invariant KeyedBy(PeerGroups, StateGroup)
        invariant GroupsOf(PeerGroups) == WithItems(old(GroupsOf(PeerGroups)), targets[..i])
        invariant Locations == old(Locations)
        invariant GroupStatesKept(old(PeerGroups), PeerGroups)
      {
        ProvideGroupAt(i, old(GroupsOf(PeerGroups)), targets);
        i := i + 1;
      }
      assert targets[..i] == targets;
    }

    /** One pass of the loop: the group of location `i` gets a state. */
    method ProvideGroupAt(i: nat, ghost base: seq<PeerGroup>, ghost targets: seq<PeerGroup>)
      requires i < |Locations| && targets == LocationGroups(LocationsOf(Locations))
      requires KeyedBy(PeerGroups, StateGroup) && GroupsOf(PeerGroups) == WithItems(base, targets[..i])
      modifies this
      ensures KeyedBy(PeerGroups, StateGroup) && GroupsOf(PeerGroups) == WithItems(base, targets[..i + 1])
      ensures Locations == old(Locations)
      ensures GroupStatesKept(old(PeerGroups), PeerGroups)
    {
      assert targets[i] == Locations[i].Location.PeerGroup;
      assert targets[..i + 1][..i] == targets[..i];
      var _ := GetPeerGroupState(Locations[i].Location.PeerGroup, true);
    }

    /**
     * `Update(utcNow, simulateConnection)`: updates each group of the map with
     * its locations (one after the other, which the disjoint entries make the
     * same as in parallel), then returns copies of every entry.
     */
    method Update(utcNow: Time, simulateConnection: Option<ConnectionState>, probe: Probe) returns (result: seq<Published>)
      requires Valid()
      modifies EntryObjects(peerGroupToLocationsMap)
      ensures forall k :: 0 <= k < |peerGroupToLocationsMap| ==>
                peerGroupToLocationsMap[k].group.Fields()
                == old(Outcome(peerGroupToLocationsMap[k], utcNow, simulateConnection, probe)).fields
      ensures forall k, l :: 0 <= k < |peerGroupToLocationsMap| && l in peerGroupToLocationsMap[k].locations ==>
                l.Fields() == old(Outcome(peerGroupToLocationsMap[k], utcNow, simulateConnection, probe)).store[l]
      ensures |result| == |peerGroupToLocationsMap|
      ensures forall k :: 0 <= k < |result| ==>
                result[k] == Published(peerGroupToLocationsMap[k].group.ShallowCopy(), Copies(peerGroupToLocationsMap[k].locations))
    {
      var mapCopy := peerGroupToLocationsMap;
      UpdateEntries(mapCopy, utcNow, simulateConnection, probe);
      result := Publish(mapCopy);
    }
  }

  /** Every location's state has its group among the states, once they were provided. */
  lemma LocationGroupsCovered(states: seq<PeerGroupState>, locations: seq<LocationState>)
    requires forall g :: g in LocationGroups(LocationsOf(locations)) ==> g in GroupsOf(states)
    ensures forall l :: l in locations ==> l.Location.PeerGroup in GroupsOf(states)
  {
    forall l | l in locations
      ensures l.Location.PeerGroup in LocationGroups(LocationsOf(locations))
    {
      var k :| 0 <= k < |locations| && locations[k] == l;
      assert LocationGroups(LocationsOf(locations))[k] == l.Location.PeerGroup;
    }
  }

  /** The group and location states the entries refer to. */
  function EntryObjects(entries: seq<Entry>): set<object>
  {
    (set k | 0 <= k < |entries| :: entries[k].group)
    + (set k, l: LocationState | 0 <= k < |entries| && l in entries[k].locations :: l)
  }

  /** Two entries of a disjoint map share no state object. */
  lemma EntriesApart(entries: seq<Entry>, j: nat, k: nat)
    requires Disjoint(entries) && j < |entries| && k < |entries| && j != k
    ensures entries[j].group != entries[k].group
    ensures forall l :: l in entries[j].locations ==> l !in entries[k].locations
  {
    assert entries[j].group.PeerGroup != entries[k].group.PeerGroup;
    forall l | l in entries[j].locations
      ensures l !in entries[k].locations
    {
      assert l.Location.PeerGroup == entries[j].group.PeerGroup;
    }
  }

  /** The `Parallel.ForEach` of `Update`, one entry after the other. */
  method UpdateEntries(entries: seq<Entry>, utcNow: Time, simulateConnection: Option<ConnectionState>, probe: Probe)
    requires Disjoint(entries)
    modifies EntryObjects(entries)
    ensures forall k :: 0 <= k < |entries| ==>
              entries[k].group.Fields() == old(Outcome(entries[k], utcNow, simulateConnection, probe)).fields
    ensures forall k, l :: 0 <= k < |entries| && l in entries[k].locations ==>
              l.Fields() == old(Outcome(entries[k], utcNow, simulateConnection, probe)).store[l]
  {
    var k := 0;
    while k < |entries|
      invariant 0 <= k <= |entries|
      invariant forall j :: 0 <= j < k ==> entries[j].group.Fields() == old(Outcome(entries[j], utcNow, simulateConnection, probe)).fields
      invariant forall j, l :: 0 <= j < k && l in entries[j].locations ==>
                  l.Fields() == old(Outcome(entries[j], utcNow, simulateConnection, probe)).store[l]
      invariant forall j :: k <= j < |entries| ==> unchanged(entries[j].group)
      invariant forall j, l :: k <= j < |entries| && l in entries[j].locations ==> unchanged(l)
    {
      assert Outcome(entries[k], utcNow, simulateConnection, probe) == old(Outcome(entries[k], utcNow, simulateConnection, probe));
      UpdateEntry(entries, k, utcNow, simulateConnection, probe);
      k := k + 1;
    }
  }

  /** One turn of the `Parallel.ForEach`: the group of entry `k` updates itself and its locations, and no other entry changes. */
  method UpdateEntry(entries: seq<Entry>, k: nat, utcNow: Time, simulateConnection: Option<ConnectionState>, probe: Probe)
    requires Disjoint(entries) && k < |entries|
    modifies EntryObjects(entries)
    ensures entries[k].group.Fields() == old(Outcome(entries[k], utcNow, simulateConnection, probe)).fields
    ensures forall l :: l in entries[k].locations ==> l.Fields() == old(Outcome(entries[k], utcNow, simulateConnection, probe)).store[l]
    ensures forall j :: 0 <= j < |entries| && j != k ==> unchanged(entries[j].group)
    ensures forall j, l :: 0 <= j < |entries| && j != k && l in entries[j].locations ==> unchanged(l)
  {
    var pair := entries[k];
    assert pair.group in EntryObjects(entries);
    assert forall l :: l in pair.locations ==> l in EntryObjects(entries);
    forall j | 0 <= j < |entries| && j != k
      ensures entries[j].group != pair.group
      ensures forall l :: l in entries[j].locations ==> l !in pair.locations
    {
      EntriesApart(entries, j, k);
    }
    pair.group.Update(utcNow, pair.locations, simulateConnection, probe);
  }

  /** The copying loop of `Update`: a copy of each entry, in order. */
  method Publish(entries: seq<Entry>) returns (result: seq<Published>)
    ensures |result| == |entries|
    ensures forall k :: 0 <= k < |entries| ==> result[k] == Published(entries[k].group.ShallowCopy(), Copies(entries[k].locations))
  {
    result := [];
    var k := 0;
    while k < |entries|
      invariant 0 <= k <= |entries|
      invariant |result| == k
      invariant forall j :: 0 <= j < k ==> result[j] == Published(entries[j].group.ShallowCopy(), Copies(entries[j].locations))
    {
      var pair := entries[k];
      var publicPeerGroup := pair.group.ShallowCopy();
      var publicLocations := Copies(pair.locations);
      result := result + [Published(publicPeerGroup, publicLocations)];
      k := k + 1;
    }
  }
}
