/**
 * The state registry as values: which groups and which locations the state
 * lists stand for, and how each collection-change action of the profile
 * rewrites them. `StateManagers` keeps its object lists in step with these.
 */
module Registries {

  import opened PeerGroups
  import opened Locations
  import opened CollectionChanges
  import opened Sequences

  /** `GetPeerGroupState` on a value list: `x` is appended unless it is already there. */
  function WithItem<T(==)>(s: seq<T>, x: T): (r: seq<T>)
  {
    if x in s then s else s + [x]
  }

  /** `WithItem` of each of `items`, in order. */
  function WithItems<T(==)>(s: seq<T>, items: seq<T>): (r: seq<T>)
    decreases |items|
  {
    if items == [] then s else WithItem(WithItems(s, items[..|items| - 1]), items[|items| - 1])
  }

  /** Adding keeps what was there, in place, and brings in exactly the missing items. */
  lemma {:induction false} WithItemsExtends<T>(s: seq<T>, items: seq<T>)
    ensures |s| <= |WithItems(s, items)| && WithItems(s, items)[..|s|] == s
    ensures forall x :: x in WithItems(s, items) <==> x in s || x in items
    decreases |items|
  {
    if items != [] {
      var front := items[..|items| - 1];
      WithItemsExtends(s, front);
      assert items == front + [items[|items| - 1]];
      var p := WithItems(s, front);
      assert p[..|s|] == s;
      if items[|items| - 1] !in p {
        assert (p + [items[|items| - 1]])[..|s|] == p[..|s|];
      }
    }
  }

  /** Adding never repeats an item. */
  lemma {:induction false} WithItemsDistinct<T>(s: seq<T>, items: seq<T>)
    requires Distinct(s)
    ensures Distinct(WithItems(s, items))
    decreases |items|
  {
    if items != [] {
      WithItemsDistinct(s, items[..|items| - 1]);
    }
  }

  /**
   * `Replace`: for each pair whose old item is present, the new item
   * overwrites the old one at its first index.
   */
  function Replaced<T(==)>(s: seq<T>, pairs: seq<(T, T)>): (r: seq<T>)
    ensures |r| == |s|
    decreases |pairs|
  {
    if pairs == [] then s
    else
      var p := Replaced(s, pairs[..|pairs| - 1]);
      var pair := pairs[|pairs| - 1];
      if pair.0 in p then p[IndexOf(p, pair.0) := pair.1] else p
  }

  /** An item that no pair replaces keeps its index. */
  lemma {:induction false} ReplacedKeepsOthers<T>(s: seq<T>, pairs: seq<(T, T)>, i: nat)
    requires i < |s|
    requires forall k :: 0 <= k < |pairs| ==> pairs[k].0 != s[i]
    ensures Replaced(s, pairs)[i] == s[i]
    decreases |pairs|
  {
    if pairs != [] {
      ReplacedKeepsOthers(s, pairs[..|pairs| - 1], i);
      var p := Replaced(s, pairs[..|pairs| - 1]);
      var pair := pairs[|pairs| - 1];
      if pair.0 in p {
        assert p[IndexOf(p, pair.0)] == pair.0 != s[i] == p[i];
      }
    }
  }

  /** Whatever `Replace` changes at an index, it changes to one of the new items. */
  lemma {:induction false} ReplacedFromNew<T>(s: seq<T>, pairs: seq<(T, T)>, i: nat)
    requires i < |s|
    ensures Replaced(s, pairs)[i] == s[i] || exists k :: 0 <= k < |pairs| && Replaced(s, pairs)[i] == pairs[k].1
    decreases |pairs|
  {
    if pairs != [] {
      var front := pairs[..|pairs| - 1];
      ReplacedFromNew(s, front, i);
      var p := Replaced(s, front);
      if p[i] != s[i] {
        var k :| 0 <= k < |front| && p[i] == front[k].1;
        assert pairs[k] == front[k];
      }
      assert pairs[|pairs| - 1] == pairs[|pairs| - 1];
    }
  }

  /** `Reset`: every current item is added, then every item no longer current is removed. */
  function Reconciled<T(==)>(s: seq<T>, current: seq<T>): (r: seq<T>)
  {
    FilterOut(WithItems(s, current), NotIn(current))
  }

  /** After a Reset the list holds exactly the current items. */
  lemma ReconciledExactly<T>(s: seq<T>, current: seq<T>)
    ensures forall x :: x in Reconciled(s, current) <==> x in current
  {
    WithItemsExtends(s, current);
    FilterOutMembers(WithItems(s, current), NotIn(current));
  }

  /** A Reset of a list without repeats leaves none: each current item is there exactly once. */
  lemma ReconciledDistinct<T>(s: seq<T>, current: seq<T>)
    requires Distinct(s)
    ensures Distinct(Reconciled(s, current))
  {
    WithItemsDistinct(s, current);
    FilterOutDistinct(WithItems(s, current), NotIn(current));
  }

  /** What one collection-change event of the profile does to a registry list. */
  function Changed<T(==)>(s: seq<T>, e: CollectionChange<T>, current: seq<T>): seq<T>
  {
    match e
    case Add(newItems) => WithItems(s, newItems)
    case Remove(oldItems) => RemoveEach(s, oldItems)
    case Replace(oldItems, newItems) => Replaced(s, Zip(oldItems, newItems))
    case Move => s
    case Reset => Reconciled(s, current)
  }

  /** The groups and the locations that have states. */
  datatype Registry = Registry(groups: seq<PeerGroup>, locations: seq<Location>)

  /**
   * The local `GetLocationState`: a location without a state first gets its
   * group a state, then is appended when `allowAdd` holds.
   */
  function Provide(r: Registry, l: Location, allowAdd: bool): (p: Registry)
    ensures l !in r.locations ==> l.PeerGroup in p.groups
    ensures l in p.locations <==> l in r.locations || allowAdd
  {
    if l in r.locations then r
    else Registry(WithItem(r.groups, l.PeerGroup), if allowAdd then r.locations + [l] else r.locations)
  }

  /** `Provide` of each of `items`, in order, adding them. */
  function ProvideAll(r: Registry, items: seq<Location>): (p: Registry)
    decreases |items|
  {
    if items == [] then r else Provide(ProvideAll(r, items[..|items| - 1]), items[|items| - 1], true)
  }

  /** The location Replace: the new location's state is fetched without adding it, then written over the old one. */
  function ProvideReplaced(r: Registry, pairs: seq<(Location, Location)>): (p: Registry)
    decreases |pairs|
  {
    if pairs == [] then r
    else
      var q := ProvideReplaced(r, pairs[..|pairs| - 1]);
      var pair := pairs[|pairs| - 1];
      if pair.0 in q.locations then
        var provided := Provide(q, pair.1, false);
        Registry(provided.groups, q.locations[IndexOf(q.locations, pair.0) := pair.1])
      else q
  }

  /** What one collection-change event of the profile's locations does to the registry. */
  function LocationsChanged(r: Registry, e: CollectionChange<Location>, current: seq<Location>): Registry
  {
    match e
    case Add(newItems) => ProvideAll(r, newItems)
    case Remove(oldItems) => r.(locations := RemoveEach(r.locations, oldItems))
    case Replace(oldItems, newItems) => ProvideReplaced(r, Zip(oldItems, newItems))
    case Move => r
    case Reset =>
      var provided := ProvideAll(r, current);
      provided.(locations := FilterOut(provided.locations, NotIn(current)))
  }

  function LocationGroup(l: Location): PeerGroup
  {
    l.PeerGroup
  }

  /** The groups of `locations`, in order. */
  function LocationGroups(locations: seq<Location>): seq<PeerGroup>
  {
    Map(locations, LocationGroup)
  }

  /** The map rebuild: `GetPeerGroupState` of each location's group, in location order. */
  function Regrouped(r: Registry): Registry
  {
    r.(groups := WithItems(r.groups, LocationGroups(r.locations)))
  }

  /** `Provide` of a location that is already there changes nothing; the lists of the others only grow at the end. */
  lemma {:induction false} ProvideAllLocations(r: Registry, items: seq<Location>)
    ensures ProvideAll(r, items).locations == WithItems(r.locations, items)
    decreases |items|
  {
    if items != [] {
      ProvideAllLocations(r, items[..|items| - 1]);
    }
  }

  lemma {:induction false} ProvideReplacedLocations(r: Registry, pairs: seq<(Location, Location)>)
    ensures ProvideReplaced(r, pairs).locations == Replaced(r.locations, pairs)
    decreases |pairs|
  {
    if pairs != [] {
      ProvideReplacedLocations(r, pairs[..|pairs| - 1]);
    }
  }

  /**
   * The location edits of an event are exactly the edits the same event
   * makes to the group list: only the groups brought in along the way differ.
   */
  lemma LocationsChangeAsItems(r: Registry, e: CollectionChange<Location>, current: seq<Location>)
    ensures LocationsChanged(r, e, current).locations == Changed(r.locations, e, current)
  {
    match e {
      case Add(newItems) => ProvideAllLocations(r, newItems);
      case Replace(oldItems, newItems) => ProvideReplacedLocations(r, Zip(oldItems, newItems));
      case Reset => ProvideAllLocations(r, current);
      case _ =>
    }
  }

  /** `Provide` only ever appends groups. */
  lemma {:induction false} ProvideAllGroups(r: Registry, items: seq<Location>)
    ensures |r.groups| <= |ProvideAll(r, items).groups| && ProvideAll(r, items).groups[..|r.groups|] == r.groups
    decreases |items|
  {
    if items != [] {
      var p := ProvideAll(r, items[..|items| - 1]);
      ProvideAllGroups(r, items[..|items| - 1]);
      var l := items[|items| - 1];
      if l !in p.locations && l.PeerGroup !in p.groups {
        assert (p.groups + [l.PeerGroup])[..|r.groups|] == p.groups[..|r.groups|];
      }
    }
  }

  /** After the rebuild, the group of every location has a state, and no group lost its state. */
  lemma RegroupedCovers(r: Registry)
    ensures |r.groups| <= |Regrouped(r).groups| && Regrouped(r).groups[..|r.groups|] == r.groups
    ensures forall l :: l in r.locations ==> l.PeerGroup in Regrouped(r).groups
  {
    WithItemsExtends(r.groups, LocationGroups(r.locations));
    forall l | l in r.locations
      ensures l.PeerGroup in LocationGroups(r.locations)
    {
      var i :| 0 <= i < |r.locations| && r.locations[i] == l;
      assert LocationGroups(r.locations)[i] == l.PeerGroup;
    }
  }
}
