/**
 * A settings node (`ISettingsNode`) as a value: a node name, typed values by
 * key, and ordered sub-nodes. How the nodes are stored is not modelled.
 */
module Settings {

  import opened Wrappers
  import opened Basics

  datatype SettingValue = Text(text: string) | Span(span: Duration) | Key(guid: Guid)

  datatype SettingsNode = SettingsNode(NodeName: string, values: map<string, SettingValue>, subNodes: seq<SettingsNode>)

  /** `GetValue(key, (string)null)`: the stored text, or null when none is stored. */
  function GetText(node: SettingsNode, key: string): (r: Option<string>)
    ensures r.Some? <==> key in node.values && node.values[key].Text?
  {
    if key in node.values && node.values[key].Text? then Some(node.values[key].text) else None
  }

  /** `GetValue(key, defaultValue)` for a `TimeSpan`: the default when no span is stored. */
  function GetSpan(node: SettingsNode, key: string, defaultValue: Duration): (r: Duration)
    ensures key !in node.values ==> r == defaultValue
  {
    if key in node.values && node.values[key].Span? then node.values[key].span else defaultValue
  }

  /** `GetValue(key, defaultValue)` for a `Guid`: the default when no GUID is stored. */
  function GetGuid(node: SettingsNode, key: string, defaultValue: Guid): (r: Guid)
    ensures key !in node.values ==> r == defaultValue
  {
    if key in node.values && node.values[key].Key? then node.values[key].guid else defaultValue
  }

  /** `SetValue(key, value)`. */
  function SetValue(node: SettingsNode, key: string, value: SettingValue): (r: SettingsNode)
    ensures r.NodeName == node.NodeName && r.subNodes == node.subNodes
    ensures key in r.values && r.values[key] == value
    ensures forall k :: k in node.values && k != key ==> k in r.values && r.values[k] == node.values[k]
  {
    node.(values := node.values[key := value])
  }

  /** `GetSubNodeNames()`: the sub-node names in order. */
  function GetSubNodeNames(node: SettingsNode): (r: seq<string>)
    ensures |r| == |node.subNodes|
    ensures forall i :: 0 <= i < |r| ==> r[i] == node.subNodes[i].NodeName
  {
    seq(|node.subNodes|, i requires 0 <= i < |node.subNodes| => node.subNodes[i].NodeName)
  }

  /** `GetSubNode(name, false)`: the first sub-node with that name, or null. */
  function GetSubNode(node: SettingsNode, name: string): (r: Option<SettingsNode>)
    ensures r.Some? ==> r.value in node.subNodes && r.value.NodeName == name
    ensures r.None? ==> forall i :: 0 <= i < |node.subNodes| ==> node.subNodes[i].NodeName != name
  {
    FirstNamed(node.subNodes, name, 0)
  }

  /** The first of `nodes[k..]` with that name. */
  function FirstNamed(nodes: seq<SettingsNode>, name: string, k: nat): (r: Option<SettingsNode>)
    requires k <= |nodes|
    ensures r.Some? ==> r.value in nodes && r.value.NodeName == name
    ensures r.None? ==> forall i :: k <= i < |nodes| ==> nodes[i].NodeName != name
    decreases |nodes| - k
  {
    if k == |nodes| then None
    else if nodes[k].NodeName == name then Some(nodes[k])
    else FirstNamed(nodes, name, k + 1)
  }
}
