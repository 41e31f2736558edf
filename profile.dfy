/**
 * The profile: the configured peer groups and locations, how they load from
 * settings, the bundled defaults, and how the locations follow edits to the
 * group collection.
 */
module Profiles {

  import opened Wrappers
  import opened Basics
  import opened Settings
  import opened PeerGroups
  import opened Locations
  import opened Sequences
  import opened CollectionChanges
  import GroupSettings = PeerGroups
  import LocationSettings = Locations

  /** The two observable collections of a profile. */
  datatype Contents = Contents(PeerGroups: seq<PeerGroup>, Locations: seq<Location>)

  /** Every location's group is one of the profile's groups. */
  predicate Consistent(c: Contents)
  {
    forall l :: l in c.Locations ==> l.PeerGroup in c.PeerGroups
  }

  // Loading from settings.

  /** The groups `Load` keeps, in sub-node order: the sub-nodes `PeerGroup.TryLoad` accepts. */
  function LoadGroups(node: SettingsNode, names: seq<string>, n: nat, parseGuid: string -> Option<Guid>): (r: seq<PeerGroup>)
    requires n <= |names|
    ensures forall g :: g in r ==> g.Name != ""
  {
    if n == 0 then []
    else
      var g := GroupSettings.TryLoad(GetSubNode(node, names[n - 1]), parseGuid);
      LoadGroups(node, names, n - 1, parseGuid) + (if g.Some? then [g.value] else [])
  }

  /** The groups loaded from the `PeerGroups` sub-node, if there is one. */
  function LoadedGroups(settingsNode: SettingsNode, parseGuid: string -> Option<Guid>): seq<PeerGroup>
  {
    var node := GetSubNode(settingsNode, "PeerGroups");
    if node.Some? then LoadGroups(node.value, GetSubNodeNames(node.value), |node.value.subNodes|, parseGuid) else []
  }

  /**
   * `ToDictionary(g => g.Id)`: a map from each id to its group; `None` stands
   * for the exception a repeated id raises.
   */
  function IdMap(groups: seq<PeerGroup>): (r: Option<map<Guid, PeerGroup>>)
    ensures r.Some? <==> DistinctIds(groups)
    ensures r.Some? ==> forall id :: id in r.value ==> r.value[id] in groups && r.value[id].Id == id
    ensures r.Some? ==> forall g :: g in groups ==> g.Id in r.value && r.value[g.Id] == g
  {
    if groups == [] then Some(map[])
    else
      var prefix := groups[..|groups| - 1];
      var last := groups[|groups| - 1];
      assert groups == prefix + [last];
      var m := IdMap(prefix);
      if m.None? || last.Id in m.value then None else Some(m.value[last.Id := last])
  }

  /** The locations `Load` keeps, in sub-node order: the sub-nodes `Location.TryLoad` accepts. */
  function LoadLocations(node: SettingsNode, names: seq<string>, n: nat, idToGroupMap: map<Guid, PeerGroup>,
                         parseGuid: string -> Option<Guid>, parseAddress: string -> Option<IPAddress>): (r: seq<Location>)
    requires n <= |names|
    ensures forall l :: l in r ==> l.Name != "" && l.PeerGroup in idToGroupMap.Values
  {
    if n == 0 then []
    else
      var l := LocationSettings.TryLoad(GetSubNode(node, names[n - 1]), idToGroupMap, parseGuid, parseAddress);
      LoadLocations(node, names, n - 1, idToGroupMap, parseGuid, parseAddress) + (if l.Some? then [l.value] else [])
  }

  /** The locations loaded from the `Locations` sub-node, if there is one. */
  function LoadedLocations(settingsNode: SettingsNode, idToGroupMap: map<Guid, PeerGroup>,
                           parseGuid: string -> Option<Guid>, parseAddress: string -> Option<IPAddress>): seq<Location>
  {
    var node := GetSubNode(settingsNode, "Locations");
    if node.Some? then LoadLocations(node.value, GetSubNodeNames(node.value), |node.value.subNodes|, idToGroupMap, parseGuid, parseAddress) else []
  }

  /** What `Load` leaves in an empty profile; nothing when there is no settings node. */
  function Loaded(settingsNode: Option<SettingsNode>, parseGuid: string -> Option<Guid>,
                  parseAddress: string -> Option<IPAddress>): Contents
    requires settingsNode.Some? ==> DistinctIds(LoadedGroups(settingsNode.value, parseGuid))
  {
    if settingsNode.None? then Contents([], [])
    else
      var groups := LoadedGroups(settingsNode.value, parseGuid);
      Contents(groups, LoadedLocations(settingsNode.value, IdMap(groups).value, parseGuid, parseAddress))
  }

  /**
   * A loaded profile is consistent: a location is kept only when its stored
   * group id names a loaded group, and every loaded name is non-empty.
   */
  lemma LoadedConsistent(settingsNode: Option<SettingsNode>, parseGuid: string -> Option<Guid>,
                         parseAddress: string -> Option<IPAddress>)
    requires settingsNode.Some? ==> DistinctIds(LoadedGroups(settingsNode.value, parseGuid))
    ensures var c := Loaded(settingsNode, parseGuid, parseAddress);
            && Consistent(c) && DistinctIds(c.PeerGroups)
            && (forall g :: g in c.PeerGroups ==> g.Name != "")
            && (forall l :: l in c.Locations ==> l.Name != "")
  {
    if settingsNode.Some? {
      var groups := LoadedGroups(settingsNode.value, parseGuid);
      var m := IdMap(groups).value;
      var locations := LoadedLocations(settingsNode.value, m, parseGuid, parseAddress);
      forall l | l in locations
        ensures l.PeerGroup in groups
      {
        var id :| id in m && m[id] == l.PeerGroup;
      }
    }
  }

  // The bundled defaults.

  /**
   * A `<Location>` element of the default profile: its name and, for each
   * `<Address>` element, what `IPAddress.TryParse` makes of its text.
   */
  datatype DefaultLocation = DefaultLocation(Name: string, Addresses: seq<Option<seq<int>>>)

  /** A `<PeerGroup>` element: its attributes (absent numbers are `None`) and its `<Location>` elements. */
  datatype DefaultGroup = DefaultGroup(Name: string, FailSeconds: Option<int>, PollSeconds: Option<int>,
                                       WaitMilliseconds: Option<int>, Locations: seq<DefaultLocation>)

  /** Every `<Location>` element is named, as the `Location` constructor demands. */
  predicate NamedLocations(elements: seq<DefaultLocation>)
  {
    forall j :: 0 <= j < |elements| ==> elements[j].Name != ""
  }

  /** Every group and location element is named, as the constructors they feed demand. */
  predicate WellFormedDefaults(defaults: seq<DefaultGroup>)
  {
    forall i :: 0 <= i < |defaults| ==> defaults[i].Name != "" && NamedLocations(defaults[i].Locations)
  }

  function OrDefault(v: Option<int>, defaultValue: int): int
  {
    if v.Some? then v.value else defaultValue
  }

  /** The group made for a `<PeerGroup>` element: absent attributes are 10 s, 5 s and 200 ms. */
  function DefaultPeerGroup(element: DefaultGroup, id: Guid): (g: PeerGroup)
    requires element.Name != ""
    ensures g.Name == element.Name && g.Id == id
    ensures element.FailSeconds.None? ==> g.Fail == DefaultFail
    ensures element.PollSeconds.None? ==> g.Poll == DefaultPoll
    ensures element.WaitMilliseconds.None? ==> g.Wait == DefaultWait
  {
    NewPeerGroup(element.Name, 1000 * OrDefault(element.FailSeconds, 10), 1000 * OrDefault(element.PollSeconds, 5),
                 OrDefault(element.WaitMilliseconds, 200), None, id)
  }

  /** The decimal digits of `n`, as string interpolation writes them. */
  function Decimal(n: nat): (r: string)
    ensures |r| >= 1
    decreases n
  {
    (if n < 10 then "" else Decimal(n / 10)) + [(('0' as int) + n % 10) as char]
  }

  /** `ordinal == 1 ? string.Empty : $" #{ordinal}"`. */
  function NameSuffix(ordinal: nat): string
  {
    if ordinal == 1 then "" else " #" + Decimal(ordinal)
  }

  /**
   * What the address loop builds for one `<Location>` element, with the
   * running ordinal and the number of objects created so far: each parsed
   * address is a new `IPAddress` object (`instance` = its number) and each
   * location is given a new id (`Guid.NewGuid()`), the number after it.
   */
  datatype Built = Built(locations: seq<Location>, ordinal: nat, next: nat)

  /** What the loop has built after the first `n` address texts. */
  function AddressLocations(group: PeerGroup, name: string, addresses: seq<Option<seq<int>>>, n: nat, next: nat): (r: Built)
    requires name != "" && n <= |addresses|
    ensures r.next >= next
  {
    if n == 0 then Built([], 1, next)
    else
      var b := AddressLocations(group, name, addresses, n - 1, next);
      var parsed := addresses[n - 1];
      if parsed.None? then b
      else
        var location := NewLocation(group, name + NameSuffix(b.ordinal), IPAddress(parsed.value, b.next), None, b.next + 1);
        Built(b.locations + [location], b.ordinal + 1, b.next + 2)
  }

  /** The number of the first `n` address texts that parse. */
  function ParsedCount(addresses: seq<Option<seq<int>>>, n: nat): nat
    requires n <= |addresses|
  {
    if n == 0 then 0
    else ParsedCount(addresses, n - 1) + (if addresses[n - 1].Some? then 1 else 0)
  }

  /**
   * Ordinal naming: one location per address that parses; the first is given
   * the element's bare name and the k-th one (k > 1) the suffix " #k", where
   * k counts parsed addresses only.
   */
  predicate OrdinallyNamed(b: Built, name: string, count: nat)
  {
    && |b.locations| == count
    && b.ordinal == count + 1
    && forall k :: 0 <= k < |b.locations| ==> b.locations[k].Name == name + NameSuffix(k + 1)
  }

  lemma {:induction false} AddressLocationsNaming(group: PeerGroup, name: string, addresses: seq<Option<seq<int>>>, n: nat, next: nat)
    requires name != "" && n <= |addresses|
    ensures OrdinallyNamed(AddressLocations(group, name, addresses, n, next), name, ParsedCount(addresses, n))
  {
    if n > 0 {
      AddressLocationsNaming(group, name, addresses, n - 1, next);
      var b := AddressLocations(group, name, addresses, n - 1, next);
      AddressLocationsStep(group, name, addresses, n - 1, next, b.locations, b.ordinal, b.next);
      if addresses[n - 1].Some? {
        var r := AddressLocations(group, name, addresses, n, next);
        var last := r.locations[|b.locations|];
        assert r == Built(b.locations + [last], b.ordinal + 1, b.next + 2);
        OrdinallyAppended(b, name, ParsedCount(addresses, n - 1), last, b.next + 2);
      } else {
        assert AddressLocations(group, name, addresses, n, next) == b;
      }
    }
  }

  /** Appending the location named with the next ordinal keeps the naming rule. */
  lemma OrdinallyAppended(b: Built, name: string, count: nat, last: Location, next: nat)
    requires OrdinallyNamed(b, name, count)
    requires last.Name == name + NameSuffix(b.ordinal)
    ensures OrdinallyNamed(Built(b.locations + [last], b.ordinal + 1, next), name, count + 1)
  {
    var appended := b.locations + [last];
    forall k | 0 <= k < |appended|
      ensures appended[k].Name == name + NameSuffix(k + 1)
    {
      if k < |b.locations| {
        assert appended[k] == b.locations[k];
      }
    }
  }

  /** All the locations built belong to the element's group. */
  lemma {:induction false} AddressLocationsGroup(group: PeerGroup, name: string, addresses: seq<Option<seq<int>>>, n: nat, next: nat)
    requires name != "" && n <= |addresses|
    ensures forall l :: l in AddressLocations(group, name, addresses, n, next).locations ==> l.PeerGroup == group
  {
    if n > 0 {
      AddressLocationsGroup(group, name, addresses, n - 1, next);
    }
  }

  /**
   * The address objects of the locations built are new (numbered from `next`
   * on, below `b.next`) and pairwise distinct.
   */
  predicate FreshlyBuilt(b: Built, next: nat)
  {
    && (forall k :: 0 <= k < |b.locations| ==> next <= b.locations[k].Address.instance < b.next)
    && (forall j, k :: 0 <= j < k < |b.locations| ==> b.locations[j].Address.instance < b.locations[k].Address.instance)
  }

  lemma {:induction false} AddressLocationsFresh(group: PeerGroup, name: string, addresses: seq<Option<seq<int>>>, n: nat, next: nat)
    requires name != "" && n <= |addresses|
    ensures FreshlyBuilt(AddressLocations(group, name, addresses, n, next), next)
  {
    if n > 0 {
      AddressLocationsFresh(group, name, addresses, n - 1, next);
      var b := AddressLocations(group, name, addresses, n - 1, next);
      AddressLocationsStep(group, name, addresses, n - 1, next, b.locations, b.ordinal, b.next);
      if addresses[n - 1].Some? {
        var r := AddressLocations(group, name, addresses, n, next);
        var last := r.locations[|b.locations|];
        assert r.locations == b.locations + [last];
        FreshAppended(b, next, last);
      }
    }
  }

  /** Appending a location whose address is numbered `b.next` keeps the locations fresh. */
  lemma FreshAppended(b: Built, next: nat, last: Location)
    requires FreshlyBuilt(b, next) && next <= b.next && last.Address.instance == b.next
    ensures FreshlyBuilt(Built(b.locations + [last], b.ordinal + 1, b.next + 2), next)
  {
  }

  /** What the location loop builds for one `<PeerGroup>` element of the defaults. */
  datatype Candidates = Candidates(locations: seq<Location>, next: nat)

  /** What the location loop has built after the first `n` `<Location>` elements. */
  function GroupLocations(group: PeerGroup, elements: seq<DefaultLocation>, n: nat, next: nat): (r: Candidates)
    requires n <= |elements| && NamedLocations(elements)
  {
    if n == 0 then Candidates([], next)
    else
      var c := GroupLocations(group, elements, n - 1, next);
      var element := elements[n - 1];
      var b := AddressLocations(group, element.Name, element.Addresses, |element.Addresses|, c.next);
      Candidates(c.locations + b.locations, b.next)
  }

  /**
   * The locations the first `n` groups of the default profile offer, in
   * document order, before duplicates are skipped.
   */
  function DefaultCandidates(defaults: seq<DefaultGroup>, n: nat): (r: Candidates)
    requires n <= |defaults| && WellFormedDefaults(defaults)
  {
    if n == 0 then Candidates([], 0)
    else
      var c := DefaultCandidates(defaults, n - 1);
      var element := defaults[n - 1];
      var group := DefaultPeerGroup(element, c.next);
      var g := GroupLocations(group, element.Locations, |element.Locations|, c.next + 1);
      Candidates(c.locations + g.locations, g.next)
  }

  /** What a new profile holds: the stored profile, or the defaults when it has no location. */
  function Initial(settingsNode: Option<SettingsNode>, defaults: seq<DefaultGroup>,
                   parseGuid: string -> Option<Guid>, parseAddress: string -> Option<IPAddress>): Contents
    requires settingsNode.Some? ==> DistinctIds(LoadedGroups(settingsNode.value, parseGuid))
    requires WellFormedDefaults(defaults)
  {
    var loaded := Loaded(settingsNode, parseGuid, parseAddress);
    if loaded.Locations == [] then AddAll(loaded, DefaultCandidates(defaults, |defaults|).locations) else loaded
  }

  lemma AddressLocationsStep(group: PeerGroup, name: string, addresses: seq<Option<seq<int>>>, n: nat, start: nat,
                             offered: seq<Location>, ordinal: nat, next: nat)
    requires name != "" && n < |addresses|
    requires Built(offered, ordinal, next) == AddressLocations(group, name, addresses, n, start)
    ensures AddressLocations(group, name, addresses, n + 1, start)
         == if addresses[n].None? then Built(offered, ordinal, next)
            else Built(offered + [NewLocation(group, name + NameSuffix(ordinal), IPAddress(addresses[n].value, next), None, next + 1)],
                       ordinal + 1, next + 2)
  {
  }

  lemma GroupLocationsStep(group: PeerGroup, elements: seq<DefaultLocation>, n: nat, start: nat, offered: seq<Location>, next: nat)
    requires n < |elements| && NamedLocations(elements)
    requires Candidates(offered, next) == GroupLocations(group, elements, n, start)
    ensures GroupLocations(group, elements, n + 1, start)
         == Candidates(offered + AddressLocations(group, elements[n].Name, elements[n].Addresses, |elements[n].Addresses|, next).locations,
                       AddressLocations(group, elements[n].Name, elements[n].Addresses, |elements[n].Addresses|, next).next)
  {
  }

  lemma DefaultCandidatesStep(defaults: seq<DefaultGroup>, n: nat, offered: seq<Location>, next: nat)
    requires n < |defaults| && WellFormedDefaults(defaults)
    requires Candidates(offered, next) == DefaultCandidates(defaults, n)
    ensures DefaultCandidates(defaults, n + 1)
         == Candidates(offered + GroupLocations(DefaultPeerGroup(defaults[n], next), defaults[n].Locations, |defaults[n].Locations|, next + 1).locations,
                       GroupLocations(DefaultPeerGroup(defaults[n], next), defaults[n].Locations, |defaults[n].Locations|, next + 1).next)
  {
  }

  // Adding a default location.

  /** Some present location has an address equal (by `Equals`) to `address`. */
  predicate HasAddress(locations: seq<Location>, address: IPAddress)
  {
    locations != [] && (locations[0].Address.value == address.value || HasAddress(locations[1..], address))
  }

  lemma {:induction false} HasAddressMeans(locations: seq<Location>, address: IPAddress)
    ensures HasAddress(locations, address) <==> exists l :: l in locations && l.Address.value == address.value
  {
    if locations != [] {
      HasAddressMeans(locations[1..], address);
      assert locations == [locations[0]] + locations[1..];
    }
  }

  lemma {:induction false} HasAddressAppend(a: seq<Location>, b: seq<Location>, address: IPAddress)
    ensures HasAddress(a + b, address) <==> HasAddress(a, address) || HasAddress(b, address)
  {
    if a != [] {
      assert (a + b)[1..] == a[1..] + b;
      HasAddressAppend(a[1..], b, address);
    } else {
      assert a + b == b;
    }
  }

  /**
   * `AddLocation` as intended: a location whose address equals that of a
   * present one is skipped; otherwise its group is added when missing and the
   * location is appended.
   */
  function Added(c: Contents, location: Location): (r: Contents)
  {
    if HasAddress(c.Locations, location.Address) then c
    else Contents(if location.PeerGroup in c.PeerGroups then c.PeerGroups else c.PeerGroups + [location.PeerGroup],
                  c.Locations + [location])
  }

  /**
   * `AddLocation` as written: `l.Address == location.Address` on `IPAddress`
   * references, which compares object identity.
   */
  function AddedAsWritten(c: Contents, location: Location): (r: Contents)
  {
    if exists l :: l in c.Locations && l.Address == location.Address then c
    else Contents(if location.PeerGroup in c.PeerGroups then c.PeerGroups else c.PeerGroups + [location.PeerGroup],
                  c.Locations + [location])
  }

  /** `AddLocation` applied to each candidate in turn. */
  function AddAll(c: Contents, locations: seq<Location>): Contents
    decreases |locations|
  {
    if locations == [] then c else AddAll(Added(c, locations[0]), locations[1..])
  }

  lemma {:induction false} AddAllAppend(c: Contents, a: seq<Location>, b: seq<Location>)
    ensures AddAll(c, a + b) == AddAll(AddAll(c, a), b)
    decreases |a|
  {
    if a == [] {
      assert a + b == b;
    } else {
      assert (a + b)[0] == a[0];
      assert (a + b)[1..] == a[1..] + b;
      AddAllAppend(Added(c, a[0]), a[1..], b);
    }
  }

  lemma AddAllSnoc(c: Contents, a: seq<Location>, x: Location)
    ensures AddAll(c, a + [x]) == Added(AddAll(c, a), x)
  {
    AddAllAppend(c, a, [x]);
    assert [x][1..] == [];
  }

  predicate DistinctAddresses(c: Contents)
  {
    forall i, j :: 0 <= i < j < |c.Locations| ==> c.Locations[i].Address.value != c.Locations[j].Address.value
  }

  /**
   * `AddLocation` never adds a location whose address is already present, adds
   * a group at most once, only ever appends, and so keeps the profile
   * consistent, its groups without repeats and its addresses distinct; the
   * address is present afterwards.
   */
  lemma AddedKeeps(c: Contents, location: Location)
    ensures var r := Added(c, location);
            && (HasAddress(c.Locations, location.Address) ==> r == c)
            && (!HasAddress(c.Locations, location.Address) ==>
                  r.Locations == c.Locations + [location] && location.PeerGroup in r.PeerGroups)
            && c.PeerGroups <= r.PeerGroups && c.Locations <= r.Locations
            && (Distinct(c.PeerGroups) ==> Distinct(r.PeerGroups))
            && (Consistent(c) ==> Consistent(r))
            && (DistinctAddresses(c) ==> DistinctAddresses(r))
            && HasAddress(r.Locations, location.Address)
  {
    HasAddressMeans(c.Locations, location.Address);
    HasAddressAppend(c.Locations, [location], location.Address);
  }

  /** A present address stays present when locations are appended. */
  lemma HasAddressGrows(a: seq<Location>, b: seq<Location>, address: IPAddress)
    requires a <= b && HasAddress(a, address)
    ensures HasAddress(b, address)
  {
    assert b == a + b[|a|..];
    HasAddressAppend(a, b[|a|..], address);
  }

  /** The invariants survive a whole sequence of additions, and an empty profile gets at least one location. */
  lemma {:induction false} AddAllKeeps(c: Contents, locations: seq<Location>)
    ensures var r := AddAll(c, locations);
            && c.PeerGroups <= r.PeerGroups && c.Locations <= r.Locations
            && (Distinct(c.PeerGroups) ==> Distinct(r.PeerGroups))
            && (Consistent(c) ==> Consistent(r))
            && (DistinctAddresses(c) ==> DistinctAddresses(r))
            && (locations != [] ==> r.Locations != [])
            && (forall l :: l in locations ==> HasAddress(r.Locations, l.Address))
    decreases |locations|
  {
    if locations != [] {
      var first := locations[0];
      var c' := Added(c, first);
      AddedKeeps(c, first);
      AddAllKeeps(c', locations[1..]);
      var r := AddAll(c, locations);
      assert r == AddAll(c', locations[1..]);
      HasAddressGrows(c'.Locations, r.Locations, first.Address);
      assert locations == [first] + locations[1..];
    }
  }

  /**
   * As written, a location whose address is a new object is always appended,
   * even when a present location has the same address.
   */
  lemma AsWrittenAddsNewAddressObject(c: Contents, location: Location)
    requires forall l :: l in c.Locations ==> l.Address.instance != location.Address.instance
    ensures AddedAsWritten(c, location).Locations == c.Locations + [location]
  {
  }

  /** Two default locations with the same address text both stay, as written. */
  lemma AsWrittenKeepsDuplicateAddress()
    ensures var g := PeerGroup("Internet", 10000, 5000, 200, 1);
            var router := Location(g, "Router", IPAddress([192, 168, 1, 1], 2), 3);
            var modem := Location(g, "Modem", IPAddress([192, 168, 1, 1], 4), 5);
            var c := AddedAsWritten(AddedAsWritten(Contents([], []), router), modem);
            && c.Locations == [router, modem]
            && !DistinctAddresses(c)
  {
    var g := PeerGroup("Internet", 10000, 5000, 200, 1);
    var router := Location(g, "Router", IPAddress([192, 168, 1, 1], 2), 3);
    var modem := Location(g, "Modem", IPAddress([192, 168, 1, 1], 4), 5);
    var c1 := AddedAsWritten(Contents([], []), router);
    assert c1.Locations == [router];
    assert router.Address != modem.Address;
    var c := AddedAsWritten(c1, modem);
    assert c.Locations == [router, modem];
    assert c.Locations[0].Address.value == c.Locations[1].Address.value;
  }

  // Reacting to edits of the group collection.

  /** The location uses one of the removed groups. */
  function UsesAny(groups: seq<PeerGroup>): Location -> bool
  {
    (l: Location) => l.PeerGroup in groups
  }

  /** `pairs.FirstOrDefault(p => p.Item1 == group)?.Item2`. */
  function Replacement(pairs: seq<(PeerGroup, PeerGroup)>, group: PeerGroup): (r: Option<PeerGroup>)
    ensures r.None? ==> forall k :: 0 <= k < |pairs| ==> pairs[k].0 != group
    ensures r.Some? ==> exists k :: 0 <= k < |pairs| && pairs[k] == (group, r.value) && forall j :: 0 <= j < k ==> pairs[j].0 != group
  {
    if pairs == [] then None
    else if pairs[0].0 == group then Some(pairs[0].1)
    else
      var r := Replacement(pairs[1..], group);
      assert r.Some? ==> exists k :: 0 <= k < |pairs[1..]| && pairs[1..][k] == (group, r.value) && forall j :: 0 <= j < k ==> pairs[1..][j].0 != group;
      assert r.Some? ==> exists k :: 0 <= k < |pairs| && pairs[k] == (group, r.value) && forall j :: 0 <= j < k ==> pairs[j].0 != group by {
        if r.Some? {
          var k :| 0 <= k < |pairs[1..]| && pairs[1..][k] == (group, r.value) && forall j :: 0 <= j < k ==> pairs[1..][j].0 != group;
          assert pairs[k + 1] == (group, r.value);
          assert forall j :: 0 <= j < k + 1 ==> pairs[j].0 != group by {
            forall j | 0 <= j < k + 1 ensures pairs[j].0 != group {
              if j > 0 { assert pairs[j] == pairs[1..][j - 1]; }
            }
          }
        }
      }
      r
  }

  /** The location rebound to its group's replacement (same name, address and id), if there is one. */
  function Rebound(pairs: seq<(PeerGroup, PeerGroup)>): Location -> Location
  {
    (l: Location) => var g := Replacement(pairs, l.PeerGroup); if g.Some? then l.(PeerGroup := g.value) else l
  }

  /** The location's group id names no current group. */
  function Unmatched(m: map<Guid, PeerGroup>): Location -> bool
  {
    (l: Location) => l.PeerGroup.Id !in m
  }

  /** The location rebound to the current group with its group's id, if there is one. */
  function Rehome(m: map<Guid, PeerGroup>, l: Location): Location
  {
    if l.PeerGroup.Id in m then l.(PeerGroup := m[l.PeerGroup.Id]) else l
  }

  function Rehomed(m: map<Guid, PeerGroup>): Location -> Location
  {
    (l: Location) => Rehome(m, l)
  }

  /** A Remove drops the locations of the removed groups, keeping the order of the others. */
  function RemovedLocations(locations: seq<Location>, oldItems: seq<PeerGroup>): seq<Location>
  {
    FilterOut(locations, UsesAny(oldItems))
  }

  /** A Replace rebinds the locations of each replaced group to the group paired with it. */
  function ReplacedLocations(locations: seq<Location>, oldItems: seq<PeerGroup>, newItems: seq<PeerGroup>): seq<Location>
  {
    Map(locations, Rebound(Zip(oldItems, newItems)))
  }

  /**
   * A Reset rebinds every location to the current group with its group's id
   * and drops those whose id matches none; when the ids repeat,
   * `ToDictionary` throws first and nothing changes.
   */
  function ResetLocations(locations: seq<Location>, peerGroups: seq<PeerGroup>): seq<Location>
  {
    var m := IdMap(peerGroups);
    if m.None? then locations else FilterOut(Map(locations, Rehomed(m.value)), Unmatched(m.value))
  }

  /** The locations after the group collection raised `e` (the groups have already changed to `peerGroups`). */
  function ChangedLocations(locations: seq<Location>, peerGroups: seq<PeerGroup>, e: CollectionChange<PeerGroup>): seq<Location>
  {
    match e
    case Remove(oldItems) => RemovedLocations(locations, oldItems)
    case Replace(oldItems, newItems) => ReplacedLocations(locations, oldItems, newItems)
    case Reset => ResetLocations(locations, peerGroups)
    case _ => locations
  }

  /** A Remove deletes exactly the locations using a removed group and keeps the rest in order. */
  lemma RemoveDropsExactly(locations: seq<Location>, oldItems: seq<PeerGroup>)
    ensures var r := RemovedLocations(locations, oldItems);
            && (forall l :: l in r <==> l in locations && l.PeerGroup !in oldItems)
            && r == RemoveEach(locations, Filter(locations, UsesAny(oldItems)))
  {
    FilterOutMembers(locations, UsesAny(oldItems));
    RemoveFilteredIsFilterOut(locations, UsesAny(oldItems));
  }

  /**
   * A Replace keeps every location at its index with its name, address and
   * id, and a location none of whose pairs names its group is untouched.
   */
  lemma ReplaceKeeps(locations: seq<Location>, oldItems: seq<PeerGroup>, newItems: seq<PeerGroup>, i: nat)
    requires i < |locations|
    ensures var r := ReplacedLocations(locations, oldItems, newItems);
            && |r| == |locations|
            && r[i].Name == locations[i].Name && r[i].Address == locations[i].Address && r[i].Id == locations[i].Id
            && ((forall k :: 0 <= k < |oldItems| && k < |newItems| ==> oldItems[k] != locations[i].PeerGroup) ==> r[i] == locations[i])
  {
    var pairs := Zip(oldItems, newItems);
    assert ReplacedLocations(locations, oldItems, newItems)[i] == Rebound(pairs)(locations[i]);
    if forall k :: 0 <= k < |oldItems| && k < |newItems| ==> oldItems[k] != locations[i].PeerGroup {
      assert forall k :: 0 <= k < |pairs| ==> pairs[k].0 == oldItems[k];
      assert Replacement(pairs, locations[i].PeerGroup).None?;
    }
  }

  /** The location of a replaced group moves to the new group of the first pair that names its group. */
  lemma ReplaceRebindsToFirstPair(locations: seq<Location>, oldItems: seq<PeerGroup>, newItems: seq<PeerGroup>, i: nat, k: nat)
    requires i < |locations| && k < |oldItems| && k < |newItems|
    requires oldItems[k] == locations[i].PeerGroup
    requires forall j :: 0 <= j < k ==> oldItems[j] != locations[i].PeerGroup
    ensures ReplacedLocations(locations, oldItems, newItems)[i].PeerGroup == newItems[k]
  {
    var pairs := Zip(oldItems, newItems);
    var g := locations[i].PeerGroup;
    assert ReplacedLocations(locations, oldItems, newItems)[i] == Rebound(pairs)(locations[i]);
    assert pairs[k] == (g, newItems[k]);
    var r := Replacement(pairs, g);
    var k' :| 0 <= k' < |pairs| && pairs[k'] == (g, r.value) && forall j :: 0 <= j < k' ==> pairs[j].0 != g;
  }

  /**
   * The Reset rule in two steps: rebinding first keeps the unmatched locations
   * as they were, so removing them one by one leaves exactly the rebound
   * matched ones.
   */
  lemma {:induction false} RehomeSplit(s: seq<Location>, m: map<Guid, PeerGroup>)
    requires forall id :: id in m ==> m[id].Id == id
    ensures Filter(s, Unmatched(m)) == Filter(Map(s, Rehomed(m)), Unmatched(m))
    ensures FilterOut(Map(s, Rehomed(m)), Unmatched(m)) == Map(FilterOut(s, Unmatched(m)), Rehomed(m))
  {
    if s != [] {
      var rehome, unmatched := Rehomed(m), Unmatched(m);
      var moved := Map(s, rehome);
      RehomeSplit(s[1..], m);
      assert unmatched(moved[0]) == unmatched(s[0]);
      assert moved[1..] == Map(s[1..], rehome);
      assert Filter(moved, unmatched) == (if unmatched(s[0]) then [moved[0]] else []) + Filter(moved[1..], unmatched);
      assert FilterOut(moved, unmatched) == (if unmatched(s[0]) then [] else [moved[0]]) + FilterOut(moved[1..], unmatched);
      if unmatched(s[0]) {
        assert moved[0] == s[0];
      }
    }
  }

  /**
   * After a Reset with distinct ids, the locations are the matched ones in
   * their old order, each bound to the current group with its group's id and
   * with its name, address and id kept; the profile is then consistent.
   */
  lemma ResetRehomes(locations: seq<Location>, peerGroups: seq<PeerGroup>)
    requires DistinctIds(peerGroups)
    ensures var m := IdMap(peerGroups).value;
            var r := ResetLocations(locations, peerGroups);
            && r == Map(FilterOut(locations, Unmatched(m)), Rehomed(m))
            && Consistent(Contents(peerGroups, r))
            && forall l :: l in r ==> exists o :: && o in locations && o.PeerGroup.Id == l.PeerGroup.Id
                                                 && o.Name == l.Name && o.Address == l.Address && o.Id == l.Id
  {
    var m := IdMap(peerGroups).value;
    RehomeSplit(locations, m);
    var kept := FilterOut(locations, Unmatched(m));
    var r := Map(kept, Rehomed(m));
    FilterOutMembers(locations, Unmatched(m));
    forall l | l in r
      ensures l.PeerGroup in peerGroups
      ensures exists o :: && o in locations && o.PeerGroup.Id == l.PeerGroup.Id
                           && o.Name == l.Name && o.Address == l.Address && o.Id == l.Id
    {
      var i :| 0 <= i < |r| && r[i] == l;
      var o := kept[i];
      assert o in kept;
      assert !Unmatched(m)(o);
      assert l == o.(PeerGroup := m[o.PeerGroup.Id]);
    }
  }

  /**
   * The loop of the Reset case, on the location list: rebinds each matched
   * location at its index and collects the unmatched ones in order.
   */
  method RehomeEach(locations: seq<Location>, m: map<Guid, PeerGroup>) returns (rehomed: seq<Location>, toRemove: seq<Location>)
    ensures rehomed == Map(locations, Rehomed(m))
    ensures toRemove == Filter(locations, Unmatched(m))
  {
    rehomed := locations;
    var numLocations := |rehomed|;
    toRemove := [];
    var i := 0;
    while i < numLocations
      invariant 0 <= i <= numLocations == |rehomed| == |locations|
      invariant forall j :: 0 <= j < i ==> rehomed[j] == Rehome(m, locations[j])
      invariant forall j :: i <= j < numLocations ==> rehomed[j] == locations[j]
      invariant toRemove == Filter(locations[..i], Unmatched(m))
    {
      var currentLocation := rehomed[i];
      if currentLocation.PeerGroup.Id in m {
        rehomed := rehomed[i := currentLocation.(PeerGroup := m[currentLocation.PeerGroup.Id])];
      } else {
        toRemove := toRemove + [currentLocation];
      }
      FilterPrefixStep(locations, i, Unmatched(m));
      i := i + 1;
    }
    assert locations[..numLocations] == locations;
  }

  class Profile {

    var PeerGroups: seq<PeerGroup>
    var Locations: seq<Location>

    function Collections(): Contents
      reads this
    {
      Contents(PeerGroups, Locations)
    }

    /**
     * Loads the settings (when given) and falls back to the defaults when no
     * location was loaded. A stored profile whose groups share an id makes
     * the source throw; the model requires it does not.
     */
    constructor (settingsNode: Option<SettingsNode>, defaults: seq<DefaultGroup>,
                 parseGuid: string -> Option<Guid>, parseAddress: string -> Option<IPAddress>)
      requires settingsNode.Some? ==> DistinctIds(LoadedGroups(settingsNode.value, parseGuid))
      requires WellFormedDefaults(defaults)
      ensures Collections() == Initial(settingsNode, defaults, parseGuid, parseAddress)
    {
      PeerGroups := [];
      Locations := [];
      new;
      LoadStored(settingsNode, parseGuid, parseAddress);
      if |Locations| == 0 {
        LoadDefaults(defaults);
      }
    }

    /** The constructor's first step, on the empty profile: `Load` when a settings node is given. */
    method LoadStored(settingsNode: Option<SettingsNode>, parseGuid: string -> Option<Guid>, parseAddress: string -> Option<IPAddress>)
      requires PeerGroups == [] && Locations == []
      requires settingsNode.Some? ==> DistinctIds(LoadedGroups(settingsNode.value, parseGuid))
      modifies this
      ensures Collections() == Loaded(settingsNode, parseGuid, parseAddress)
    {
      if settingsNode.Some? {
        ghost var groups := LoadedGroups(settingsNode.value, parseGuid);
        assert [] + groups == groups;
        Load(settingsNode.value, parseGuid, parseAddress);
        assert PeerGroups == groups;
        ghost var locations := LoadedLocations(settingsNode.value, IdMap(groups).value, parseGuid, parseAddress);
        assert [] + locations == locations;
        assert Locations == locations;
      }
    }

    /** `Load`: appends the groups, then the locations whose group id names one of the groups. */
    method Load(settingsNode: SettingsNode, parseGuid: string -> Option<Guid>, parseAddress: string -> Option<IPAddress>)
      requires DistinctIds(PeerGroups + LoadedGroups(settingsNode, parseGuid))
      modifies this
      ensures PeerGroups == old(PeerGroups) + LoadedGroups(settingsNode, parseGuid)
      ensures Locations == old(Locations) + LoadedLocations(settingsNode, IdMap(PeerGroups).value, parseGuid, parseAddress)
    {
      var peerGroupsNode := GetSubNode(settingsNode, "PeerGroups");
      if peerGroupsNode.Some? {
        LoadPeerGroups(peerGroupsNode.value, parseGuid);
      }
      assert PeerGroups == old(PeerGroups) + LoadedGroups(settingsNode, parseGuid);
      var idToGroupMap := IdMap(PeerGroups).value;
      var locationsNode := GetSubNode(settingsNode, "Locations");
      if locationsNode.Some? {
        LoadLocationNodes(locationsNode.value, idToGroupMap, parseGuid, parseAddress);
      }
    }

    /** The first loop of `Load`: a group for each sub-node of `PeerGroups` that loads. */
    method LoadPeerGroups(node: SettingsNode, parseGuid: string -> Option<Guid>)
      modifies this
      ensures PeerGroups == old(PeerGroups) + LoadGroups(node, GetSubNodeNames(node), |node.subNodes|, parseGuid)
      ensures Locations == old(Locations)
    {
      var names := GetSubNodeNames(node);
      ghost var loaded: seq<PeerGroup> := [];
      var i := 0;
      while i < |names|
        invariant 0 <= i <= |names|
        invariant loaded == LoadGroups(node, names, i, parseGuid)
        invariant PeerGroups == old(PeerGroups) + loaded
        invariant Locations == old(Locations)
      {
        var peerGroup := GroupSettings.TryLoad(GetSubNode(node, names[i]), parseGuid);
        if peerGroup.Some? {
          PeerGroups := PeerGroups + [peerGroup.value];
          loaded := loaded + [peerGroup.value];
        }
        i := i + 1;
      }
    }

    /** The second loop of `Load`: a location for each sub-node of `Locations` that loads. */
    method LoadLocationNodes(node: SettingsNode, idToGroupMap: map<Guid, PeerGroup>,
                             parseGuid: string -> Option<Guid>, parseAddress: string -> Option<IPAddress>)
      modifies this
      ensures PeerGroups == old(PeerGroups)
      ensures Locations == old(Locations) + LoadLocations(node, GetSubNodeNames(node), |node.subNodes|, idToGroupMap, parseGuid, parseAddress)
    {
      var names := GetSubNodeNames(node);
      ghost var loaded: seq<Location> := [];
      var i := 0;
      while i < |names|
        invariant 0 <= i <= |names|
        invariant loaded == LoadLocations(node, names, i, idToGroupMap, parseGuid, parseAddress)
        invariant Locations == old(Locations) + loaded
        invariant PeerGroups == old(PeerGroups)
      {
        var location := LocationSettings.TryLoad(GetSubNode(node, names[i]), idToGroupMap, parseGuid, parseAddress);
        if location.Some? {
          Locations := Locations + [location.value];
          loaded := loaded + [location.value];
        }
        i := i + 1;
      }
    }

    /** `RevertToDefaults`: clears both collections and loads the defaults. */
    method RevertToDefaults(defaults: seq<DefaultGroup>)
      requires WellFormedDefaults(defaults)
      modifies this
      ensures Collections() == AddAll(Contents([], []), DefaultCandidates(defaults, |defaults|).locations)
    {
      Locations := [];
      PeerGroups := [];
      LoadDefaults(defaults);
    }

    /** `LoadDefaults`: offers every default location, in document order, to `AddLocation`. */
    method LoadDefaults(defaults: seq<DefaultGroup>)
      requires WellFormedDefaults(defaults)
      modifies this
      ensures Collections() == AddAll(old(Collections()), DefaultCandidates(defaults, |defaults|).locations)
    {
      ghost var initial := Collections();
      ghost var offered: seq<Location> := [];
      var next := 0;
      var gi := 0;
      while gi < |defaults|
        invariant 0 <= gi <= |defaults|
        invariant Candidates(offered, next) == DefaultCandidates(defaults, gi)
        invariant Collections() == AddAll(initial, offered)
      {
        offered, next := LoadDefaultElement(defaults, gi, next, initial, offered);
        gi := gi + 1;
      }
    }

    /** One turn of the loop of `LoadDefaults`: the group of `defaults[gi]` and its locations. */
    method LoadDefaultElement(defaults: seq<DefaultGroup>, gi: nat, start: nat, ghost initial: Contents, ghost offered: seq<Location>)
      returns (ghost offeredAfter: seq<Location>, next: nat)
      requires gi < |defaults| && WellFormedDefaults(defaults)
      requires Candidates(offered, start) == DefaultCandidates(defaults, gi)
      requires Collections() == AddAll(initial, offered)
      modifies this
      ensures Candidates(offeredAfter, next) == DefaultCandidates(defaults, gi + 1)
      ensures Collections() == AddAll(initial, offeredAfter)
    {
      var groupElement := defaults[gi];
      var group := DefaultPeerGroup(groupElement, start);
      ghost var built := GroupLocations(group, groupElement.Locations, |groupElement.Locations|, start + 1);
      DefaultCandidatesStep(defaults, gi, offered, start);
      next := LoadDefaultGroup(group, groupElement.Locations, start + 1);
      AddAllAppend(initial, offered, built.locations);
      offeredAfter := offered + built.locations;
    }

    /** The loop over the `<Location>` elements of one default group. */
    method LoadDefaultGroup(group: PeerGroup, elements: seq<DefaultLocation>, start: nat) returns (next: nat)
      requires NamedLocations(elements)
      modifies this
      ensures next == GroupLocations(group, elements, |elements|, start).next
      ensures Collections() == AddAll(old(Collections()), GroupLocations(group, elements, |elements|, start).locations)
    {
      ghost var initial := Collections();
      ghost var offered: seq<Location> := [];
      next := start;
      var li := 0;
      while li < |elements|
        invariant 0 <= li <= |elements|
        invariant Candidates(offered, next) == GroupLocations(group, elements, li, start)
        invariant Collections() == AddAll(initial, offered)
      {
        var locationElement := elements[li];
        ghost var built := AddressLocations(group, locationElement.Name, locationElement.Addresses, |locationElement.Addresses|, next);
        GroupLocationsStep(group, elements, li, start, offered, next);
        next := LoadDefaultLocation(group, locationElement, next);
        AddAllAppend(initial, offered, built.locations);
        offered := offered + built.locations;
        li := li + 1;
      }
    }

    /** The loop over the `<Address>` elements of one default location, with its ordinal. */
    method LoadDefaultLocation(group: PeerGroup, element: DefaultLocation, start: nat) returns (next: nat)
      requires element.Name != ""
      modifies this
      ensures next == AddressLocations(group, element.Name, element.Addresses, |element.Addresses|, start).next
      ensures Collections() == AddAll(old(Collections()), AddressLocations(group, element.Name, element.Addresses, |element.Addresses|, start).locations)
    {
      ghost var initial := Collections();
      ghost var offered: seq<Location> := [];
      next := start;
      var ordinal := 1;
      var ai := 0;
      while ai < |element.Addresses|
        invariant 0 <= ai <= |element.Addresses|
        invariant Built(offered, ordinal, next) == AddressLocations(group, element.Name, element.Addresses, ai, start)
        invariant Collections() == AddAll(initial, offered)
      {
        var parsed := element.Addresses[ai];
        AddressLocationsStep(group, element.Name, element.Addresses, ai, start, offered, ordinal, next);
        if parsed.Some? {
          var address := IPAddress(parsed.value, next);
          var nameSuffix := NameSuffix(ordinal);
          var location := NewLocation(group, element.Name + nameSuffix, address, None, next + 1);
          next := next + 2;
          AddAllSnoc(initial, offered, location);
          AddLocation(location);
          offered := offered + [location];
          ordinal := ordinal + 1;
        }
        ai := ai + 1;
      }
    }

    /** `AddLocation`, comparing addresses by value (see `AddedAsWritten` for the reference comparison written). */
    method AddLocation(location: Location)
      modifies this
      ensures Collections() == Added(old(Collections()), location)
    {
      if !HasAddress(Locations, location.Address) {
        if location.PeerGroup !in PeerGroups {
          PeerGroups := PeerGroups + [location.PeerGroup];
        }
        Locations := Locations + [location];
      }
    }

    /**
     * The handler for the group collection's change events (the groups have
     * already changed). Returns false where the source throws: a Reset whose
     * groups share an id.
     */
    method PeerGroupsCollectionChanged(e: CollectionChange<PeerGroup>) returns (ok: bool)
      modifies this
      ensures ok == (!e.Reset? || DistinctIds(PeerGroups))
      ensures PeerGroups == old(PeerGroups)
      ensures Locations == ChangedLocations(old(Locations), PeerGroups, e)
    {
      ok := true;
      match e {
        case Remove(oldItems) =>
          OnRemove(oldItems);
        case Replace(oldItems, newItems) =>
          OnReplace(oldItems, newItems);
        case Reset =>
          ok := OnReset();
        case _ =>
      }
    }

    /** The Remove case: collects the locations of the removed groups, then removes them. */
    method OnRemove(oldItems: seq<PeerGroup>)
      modifies this
      ensures PeerGroups == old(PeerGroups)
      ensures Locations == RemovedLocations(old(Locations), oldItems)
    {
      var toRemove: seq<Location> := [];
      var i := 0;
      while i < |Locations|
        invariant 0 <= i <= |Locations|
        invariant toRemove == Filter(Locations[..i], UsesAny(oldItems))
        invariant PeerGroups == old(PeerGroups) && Locations == old(Locations)
      {
        if Locations[i].PeerGroup in oldItems {
          toRemove := toRemove + [Locations[i]];
        }
        FilterPrefixStep(Locations, i, UsesAny(oldItems));
        i := i + 1;
      }
      assert Locations[..|Locations|] == Locations;
      RemoveFilteredIsFilterOut(Locations, UsesAny(oldItems));
      RemoveAll(toRemove);
    }

    /** The Replace case: rebinds each location whose group was replaced, in place. */
    method OnReplace(oldItems: seq<PeerGroup>, newItems: seq<PeerGroup>)
      modifies this
      ensures PeerGroups == old(PeerGroups)
      ensures Locations == ReplacedLocations(old(Locations), oldItems, newItems)
    {
      var pairs := Zip(oldItems, newItems);
      var numLocations := |Locations|;
      var i := 0;
      while i < numLocations
        invariant 0 <= i <= numLocations == |Locations|
        invariant forall j :: 0 <= j < i ==> Locations[j] == Rebound(pairs)(old(Locations)[j])
        invariant forall j :: i <= j < numLocations ==> Locations[j] == old(Locations)[j]
        invariant PeerGroups == old(PeerGroups)
      {
        var currentLocation := Locations[i];
        var replacement := Replacement(pairs, currentLocation.PeerGroup);
        if replacement.Some? {
          Locations := Locations[i := currentLocation.(PeerGroup := replacement.value)];
        }
        i := i + 1;
      }
    }

    /**
     * The Reset case: rebinds every location to the group with its group's id
     * and removes those whose id matches none; false (and nothing changed)
     * when the ids repeat.
     */
    method OnReset() returns (ok: bool)
      modifies this
      ensures ok == DistinctIds(PeerGroups)
      ensures PeerGroups == old(PeerGroups)
      ensures Locations == ResetLocations(old(Locations), PeerGroups)
    {
      var idToGroupMap := IdMap(PeerGroups);
      if idToGroupMap.None? {
        return false;
      }
      var m := idToGroupMap.value;
      ghost var before := Locations;
      var rehomed, toRemove := RehomeEach(Locations, m);
      Locations := rehomed;
      RehomeSplit(before, m);
      RemoveFilteredIsFilterOut(Locations, Unmatched(m));
      RemoveAll(toRemove);
      ok := true;
    }

    /** The closing loop of the handler: `Locations.Remove` of each collected location in turn. */
    method RemoveAll(toRemove: seq<Location>)
      modifies this
      ensures PeerGroups == old(PeerGroups)
      ensures Locations == RemoveEach(old(Locations), toRemove)
    {
      var k := 0;
      while k < |toRemove|
        invariant 0 <= k <= |toRemove|
        invariant PeerGroups == old(PeerGroups)
        invariant RemoveEach(Locations, toRemove[k..]) == RemoveEach(old(Locations), toRemove)
      {
        assert toRemove[k..][1..] == toRemove[k + 1..];
        Locations := RemoveFirst(Locations, toRemove[k]);
        k := k + 1;
      }
    }
  }
}
