/** A peer group: a name and the durations that govern polling and failure. */
module PeerGroups {

  import opened Wrappers
  import opened Basics
  import opened Settings

  /**
   * `Name`, `Fail`, `Poll`, `Wait` and `Id` are get-only properties set by the
   * constructor; as a datatype value a group can never change after it is made.
   */
  datatype PeerGroup = PeerGroup(Name: string, Fail: Duration, Poll: Duration, Wait: Duration, Id: Guid)

  /** The ids are pairwise distinct, as `ToDictionary(g => g.Id)` demands. */
  predicate DistinctIds(groups: seq<PeerGroup>)
  {
    forall i, j :: 0 <= i < j < |groups| ==> groups[i].Id != groups[j].Id
  }

  /** Timer callbacks are not exactly periodic, so polling tolerates 20 ms of jitter. */
  const PollTolerance: Duration := 20

  /** Whether enough time has passed since `utcLastPolled` to poll again. */
  predicate CanPoll(g: PeerGroup, utcNow: Time, utcLastPolled: Time)
  {
    utcNow - utcLastPolled > g.Poll - PollTolerance
  }

  /** Exactly `Poll - 20ms` after the last poll is still too early; one tick later is not. */
  lemma CanPollBoundary(g: PeerGroup, utcLastPolled: Time)
    ensures !CanPoll(g, utcLastPolled + g.Poll - PollTolerance, utcLastPolled)
    ensures CanPoll(g, utcLastPolled + g.Poll - PollTolerance + 1, utcLastPolled)
  {
  }

  /** Once polling is allowed it stays allowed until the next poll. */
  lemma CanPollMonotone(g: PeerGroup, utcLastPolled: Time, t: Time, t': Time)
    requires t <= t' && CanPoll(g, t, utcLastPolled)
    ensures CanPoll(g, t', utcLastPolled)
  {
  }

  /**
   * The constructor: the name must be non-empty (`Conditions.RequireString`);
   * the id is the given one, otherwise a newly generated `freshId`.
   */
  function NewPeerGroup(name: string, fail: Duration, poll: Duration, wait: Duration, id: Option<Guid>, freshId: Guid): (g: PeerGroup)
    requires name != ""
    ensures g.Name == name && g.Fail == fail && g.Poll == poll && g.Wait == wait
    ensures g.Id == (if id.Some? then id.value else freshId)
  {
    PeerGroup(name, fail, poll, wait, if id.Some? then id.value else freshId)
  }

  const DefaultFail: Duration := 10000
  const DefaultPoll: Duration := 5000
  const DefaultWait: Duration := 200

  /**
   * Loads a group from a settings node named by its GUID; null when there is
   * no node, the node name is not a GUID, or the `Name` value is null or empty.
   */
  function TryLoad(node: Option<SettingsNode>, parseGuid: string -> Option<Guid>): (r: Option<PeerGroup>)
    ensures r.Some? <==> node.Some? && parseGuid(node.value.NodeName).Some? && !IsNullOrEmpty(GetText(node.value, "Name"))
    ensures r.Some? ==> r.value.Id == parseGuid(node.value.NodeName).value
    ensures r.Some? ==> Some(r.value.Name) == GetText(node.value, "Name")
    ensures r.Some? ==> r.value.Fail == GetSpan(node.value, "Fail", DefaultFail)
    ensures r.Some? ==> r.value.Poll == GetSpan(node.value, "Poll", DefaultPoll)
    ensures r.Some? ==> r.value.Wait == GetSpan(node.value, "Wait", DefaultWait)
  {
    if node.Some? && parseGuid(node.value.NodeName).Some? then
      var n := node.value;
      var fail := GetSpan(n, "Fail", DefaultFail);
      var poll := GetSpan(n, "Poll", DefaultPoll);
      var wait := GetSpan(n, "Wait", DefaultWait);
      var name := GetText(n, "Name");
      if !IsNullOrEmpty(name) then Some(NewPeerGroup(name.value, fail, poll, wait, parseGuid(n.NodeName), EmptyGuid))
      else None
    else None
  }

  /** A node without Fail, Poll and Wait values loads as 10 s, 5 s and 200 ms. */
  lemma TryLoadDefaults(node: SettingsNode, parseGuid: string -> Option<Guid>)
    requires parseGuid(node.NodeName).Some? && !IsNullOrEmpty(GetText(node, "Name"))
    requires "Fail" !in node.values && "Poll" !in node.values && "Wait" !in node.values
    ensures TryLoad(Some(node), parseGuid).Some?
    ensures TryLoad(Some(node), parseGuid).value.Fail == 10000
    ensures TryLoad(Some(node), parseGuid).value.Poll == 5000
    ensures TryLoad(Some(node), parseGuid).value.Wait == 200
  {
  }

  /** `Save`: writes the four values into the node named by the group's id. */
  function Save(g: PeerGroup, node: SettingsNode): (r: SettingsNode)
    ensures r.NodeName == node.NodeName
    ensures GetText(r, "Name") == Some(g.Name)
    ensures GetSpan(r, "Fail", DefaultFail) == g.Fail
    ensures GetSpan(r, "Poll", DefaultPoll) == g.Poll
    ensures GetSpan(r, "Wait", DefaultWait) == g.Wait
  {
    var n1 := SetValue(node, "Name", Text(g.Name));
    var n2 := SetValue(n1, "Fail", Span(g.Fail));
    var n3 := SetValue(n2, "Poll", Span(g.Poll));
    SetValue(n3, "Wait", Span(g.Wait))
  }

  /** What `Save` writes into the node named by the id, `TryLoad` reads back. */
  lemma SaveTryLoadRoundTrip(g: PeerGroup, node: SettingsNode, parseGuid: string -> Option<Guid>)
    requires g.Name != ""
    requires parseGuid(node.NodeName) == Some(g.Id)
    ensures TryLoad(Some(Save(g, node)), parseGuid) == Some(g)
  {
  }
}
