/** A location: a named address that belongs to one peer group. */
module Locations {

  import opened Wrappers
  import opened Basics
  import opened Settings
  import opened PeerGroups

  /**
   * `PeerGroup`, `Name`, `Address` and `Id` are get-only properties set by the
   * constructor; a location is never modified, only replaced.
   */
  datatype Location = Location(PeerGroup: PeerGroup, Name: string, Address: IPAddress, Id: Guid)

  /**
   * The constructor: the name must be non-empty (the group and address
   * references, required non-null, are values here); the id is the given one,
   * otherwise a newly generated `freshId`.
   */
  function NewLocation(peerGroup: PeerGroup, name: string, address: IPAddress, id: Option<Guid>, freshId: Guid): (l: Location)
    requires name != ""
    ensures l.PeerGroup == peerGroup && l.Name == name && l.Address == address
    ensures l.Id == (if id.Some? then id.value else freshId)
  {
    Location(peerGroup, name, address, if id.Some? then id.value else freshId)
  }

  /** The address text stored under `Address`, parsed; null when absent or unparsable. */
  function ParsedAddress(node: SettingsNode, parseAddress: string -> Option<IPAddress>): Option<IPAddress>
  {
    var text := GetText(node, "Address");
    if text.Some? then parseAddress(text.value) else None
  }

  /**
   * Loads a location from a settings node named by its GUID. Null unless the
   * node name is a GUID, the address parses, the name is non-empty and the
   * stored `PeerGroupId` (default `Guid.Empty`) names a group in the map.
   */
  function TryLoad(node: Option<SettingsNode>, idToGroupMap: map<Guid, PeerGroup>,
                   parseGuid: string -> Option<Guid>, parseAddress: string -> Option<IPAddress>): (r: Option<Location>)
    ensures r.Some? <==>
      && node.Some?
      && parseGuid(node.value.NodeName).Some?
      && ParsedAddress(node.value, parseAddress).Some?
      && !IsNullOrEmpty(GetText(node.value, "Name"))
      && GetGuid(node.value, "PeerGroupId", EmptyGuid) in idToGroupMap
    ensures r.Some? ==> r.value.Id == parseGuid(node.value.NodeName).value
    ensures r.Some? ==> r.value.PeerGroup == idToGroupMap[GetGuid(node.value, "PeerGroupId", EmptyGuid)]
    ensures r.Some? ==> Some(r.value.Name) == GetText(node.value, "Name")
    ensures r.Some? ==> Some(r.value.Address) == ParsedAddress(node.value, parseAddress)
  {
    if node.Some? && parseGuid(node.value.NodeName).Some? then
      var n := node.value;
      var peerGroupId := GetGuid(n, "PeerGroupId", EmptyGuid);
      var name := GetText(n, "Name");
      var address := ParsedAddress(n, parseAddress);
      if address.Some? && !IsNullOrEmpty(name) && peerGroupId in idToGroupMap then
        Some(NewLocation(idToGroupMap[peerGroupId], name.value, address.value, parseGuid(n.NodeName), EmptyGuid))
      else None
    else None
  }

  /** `Save`: writes the group id, the name and the address text into the node. */
  function Save(l: Location, node: SettingsNode, formatAddress: IPAddress -> string): (r: SettingsNode)
    ensures r.NodeName == node.NodeName
    ensures GetGuid(r, "PeerGroupId", EmptyGuid) == l.PeerGroup.Id
    ensures GetText(r, "Name") == Some(l.Name)
    ensures GetText(r, "Address") == Some(formatAddress(l.Address))
  {
    var n1 := SetValue(node, "PeerGroupId", Key(l.PeerGroup.Id));
    var n2 := SetValue(n1, "Name", Text(l.Name));
    SetValue(n2, "Address", Text(formatAddress(l.Address)))
  }

  /**
   * Round trip: a location saved into the node named by its id loads back with
   * the same id, name and group, and with an address equal in value (parsing
   * makes a new address object).
   */
  lemma SaveTryLoadRoundTrip(l: Location, node: SettingsNode, idToGroupMap: map<Guid, PeerGroup>,
                             parseGuid: string -> Option<Guid>, parseAddress: string -> Option<IPAddress>,
                             formatAddress: IPAddress -> string)
    requires l.Name != ""
    requires parseGuid(node.NodeName) == Some(l.Id)
    requires parseAddress(formatAddress(l.Address)).Some?
    requires parseAddress(formatAddress(l.Address)).value.value == l.Address.value
    requires l.PeerGroup.Id in idToGroupMap && idToGroupMap[l.PeerGroup.Id] == l.PeerGroup
    ensures var r := TryLoad(Some(Save(l, node, formatAddress)), idToGroupMap, parseGuid, parseAddress);
            && r.Some?
            && r.value.Id == l.Id && r.value.Name == l.Name && r.value.PeerGroup == l.PeerGroup
            && r.value.Address.value == l.Address.value
  {
  }
}
