/**
 * One row of the status grid: a location of a group, as last reported by the
 * state manager. Each property setter assigns only on change and then raises
 * `PropertyChanged`.
 */
module StatusRows {

  import opened Wrappers
  import opened Basics
  import opened Enumerations
  import opened LocationStates
  import opened PeerGroupStates
  import opened PropertyChangeNotifiers

  /** The ten properties of a row; the names are `null` and the address is unset in a new row. */
  datatype StatusValues = StatusValues(
    GroupName: Option<string>,
    GroupFail: Duration,
    GroupPoll: Duration,
    GroupWait: Duration,
    IsGroupFailed: bool,
    LocationName: Option<string>,
    LocationAddress: Option<IPAddress>,
    IsLocationConnected: Option<bool>,
    LocationRoundtripTime: Duration,
    IsLocationUpToDate: bool)

  const NewRowValues: StatusValues := StatusValues(None, 0, 0, 0, false, None, None, None, 0, false)

  /**
   * A location's verdict as a nullable flag, which is how the row reads
   * `IsConnected`: Connected is true, Disconnected false, Unavailable null.
   */
  function IsConnected(c: ConnectionState): Option<bool>
  {
    match c
    case Connected => Some(true)
    case Disconnected => Some(false)
    case Unavailable => None
  }

  /** The flag and the probe reply's verdict are inverses of each other. */
  lemma IsConnectedInvertsReply(c: ConnectionState, reply: Option<bool>)
    ensures ReplyConnection(IsConnected(c)) == c
    ensures IsConnected(ReplyConnection(reply)) == reply
  {
  }

  /** What a row shows for a snapshot of a group state and of one of its location states. */
  function Shown(g: GroupRecord, l: LocationRecord): StatusValues
  {
    StatusValues(
      Some(g.PeerGroup.Name), g.PeerGroup.Fail, g.PeerGroup.Poll, g.PeerGroup.Wait, g.fields.IsFailed,
      Some(l.Location.Name), Some(l.Location.Address), IsConnected(l.fields.Connection), l.fields.RoundtripTime,
      l.fields.UpdateCounter == g.fields.UpdateCounter)
  }

  /**
   * `raised` followed, when a handler is attached, by the names of the properties that differ between `a`
   * and `b`, in the order `Update` assigns them; the address, assigned without
   * its setter, is never named.
   */
  function Changes(raised: seq<string>, subscribed: bool, a: StatusValues, b: StatusValues): seq<string>
  {
    LocationChanges(GroupChanges(raised, subscribed, a, b), subscribed, a, b)
  }

  /** The group half of `Changes`. */
  function GroupChanges(raised: seq<string>, subscribed: bool, a: StatusValues, b: StatusValues): seq<string>
  {
    var r1 := Emit(raised, subscribed && a.GroupName != b.GroupName, "GroupName");
    var r2 := Emit(r1, subscribed && a.GroupFail != b.GroupFail, "GroupFail");
    var r3 := Emit(r2, subscribed && a.GroupPoll != b.GroupPoll, "GroupPoll");
    var r4 := Emit(r3, subscribed && a.GroupWait != b.GroupWait, "GroupWait");
    Emit(r4, subscribed && a.IsGroupFailed != b.IsGroupFailed, "IsGroupFailed")
  }

  /** The location half of `Changes`. */
  function LocationChanges(raised: seq<string>, subscribed: bool, a: StatusValues, b: StatusValues): seq<string>
  {
    var r1 := Emit(raised, subscribed && a.LocationName != b.LocationName, "LocationName");
    var r2 := Emit(r1, subscribed && a.IsLocationConnected != b.IsLocationConnected, "IsLocationConnected");
    var r3 := Emit(r2, subscribed && a.LocationRoundtripTime != b.LocationRoundtripTime, "LocationRoundtripTime");
    Emit(r3, subscribed && a.IsLocationUpToDate != b.IsLocationUpToDate, "IsLocationUpToDate")
  }

  /** The events of one `Update` come after those raised before. */
  lemma ChangesExtend(raised: seq<string>, subscribed: bool, a: StatusValues, b: StatusValues)
    ensures |Changes(raised, subscribed, a, b)| >= |raised| && Changes(raised, subscribed, a, b)[..|raised|] == raised
  {
  }

  /** Under a handler, nothing is raised exactly when nothing but the address changed. */
  lemma ChangesNoneIffUnchanged(raised: seq<string>, a: StatusValues, b: StatusValues)
    ensures Changes(raised, true, a, b) == raised <==> a.(LocationAddress := b.LocationAddress) == b
  {
  }

  /** The address is never named: it is assigned without its setter. */
  lemma ChangesNeverAddress(raised: seq<string>, subscribed: bool, a: StatusValues, b: StatusValues)
    ensures "LocationAddress" in Changes(raised, subscribed, a, b) ==> "LocationAddress" in raised
  {
  }

  /** Without a handler nothing is raised. */
  lemma ChangesUnsubscribed(raised: seq<string>, a: StatusValues, b: StatusValues)
    ensures Changes(raised, false, a, b) == raised
  {
  }

  /** Showing the same snapshots again raises nothing. */
  lemma ReshowSilent(g: GroupRecord, l: LocationRecord)
    ensures forall raised, subscribed :: Changes(raised, subscribed, Shown(g, l), Shown(g, l)) == raised
  {
  }

  /** `EqualityComparer<T>.Default` for the value types of the row: equality. */
  predicate Equal<T(==)>(a: T, b: T)
  {
    a == b
  }

  /**
   * `EqualityComparer<IPAddress>.Default`: null equals only null, and two
   * addresses are equal when `IPAddress.Equals` finds the same bytes, whichever
   * objects hold them.
   */
  predicate SameAddress(a: Option<IPAddress>, b: Option<IPAddress>)
  {
    if a.None? || b.None? then a.None? && b.None? else a.value.value == b.value.value
  }

  class StatusRow {

    var groupName: Option<string>
    var groupFail: Duration
    var groupPoll: Duration
    var groupWait: Duration
    var isGroupFailed: bool
    var locationName: Option<string>
    var locationAddress: Option<IPAddress>
    var isLocationConnected: Option<bool>
    var locationRoundtripTime: Duration
    var isLocationUpToDate: bool

    /** The property names carried by the `PropertyChanged` events raised so far, oldest first. */
    var Raised: seq<string>

    /** How many handlers are attached to `PropertyChanged`. */
    var Handlers: nat

    function Values(): StatusValues
      reads this
    {
      StatusValues(groupName, groupFail, groupPoll, groupWait, isGroupFailed,
                   locationName, locationAddress, isLocationConnected, locationRoundtripTime, isLocationUpToDate)
    }

    constructor ()
      ensures Values() == NewRowValues && Raised == [] && Handlers == 0
    {
      groupName := None;
      groupFail := 0;
      groupPoll := 0;
      groupWait := 0;
      isGroupFailed := false;
      locationName := None;
      locationAddress := None;
      isLocationConnected := None;
      locationRoundtripTime := 0;
      isLocationUpToDate := false;
      Raised := [];
      Handlers := 0;
    }

    /** `PropertyChanged += handler`. */
    method Subscribe()
      modifies this
      ensures Handlers == old(Handlers) + 1 && Raised == old(Raised) && Values() == old(Values())
    {
      Handlers := Handlers + 1;
    }

    /**
     * The row's own `Update<T>(ref member, value)`, with `equals` standing for
     * `EqualityComparer<T>.Default`: returns the member's new value, which is
     * the old one when `equals` finds them equal and `value` otherwise, and
     * raises an event naming `callerMemberName` only for a change under a
     * handler.
     */
    method UpdateProperty<T>(member: T, value: T, equals: (T, T) -> bool, callerMemberName: string) returns (updated: T)
      modifies this
      ensures updated == if equals(member, value) then member else value
      ensures Raised == Emit(old(Raised), old(Handlers) > 0 && !equals(member, value), callerMemberName)
      ensures Handlers == old(Handlers) && Values() == old(Values())
    {
      updated := member;
      if !equals(member, value) {
        updated := value;
        if Handlers > 0 {
          Raised := Raised + [callerMemberName];
        }
      }
    }

    // The property setters: each assigns through `UpdateProperty` under its own name.

    method SetGroupName(value: Option<string>)
      modifies this
      ensures Values() == old(Values()).(GroupName := value)
      ensures Raised == Emit(old(Raised), old(Handlers) > 0 && old(groupName) != value, "GroupName") && Handlers == old(Handlers)
    {
      groupName := UpdateProperty(groupName, value, Equal, "GroupName");
    }

    method SetGroupFail(value: Duration)
      modifies this
      ensures Values() == old(Values()).(GroupFail := value)
      ensures Raised == Emit(old(Raised), old(Handlers) > 0 && old(groupFail) != value, "GroupFail") && Handlers == old(Handlers)
    {
      groupFail := UpdateProperty(groupFail, value, Equal, "GroupFail");
    }

    method SetGroupPoll(value: Duration)
      modifies this
      ensures Values() == old(Values()).(GroupPoll := value)
      ensures Raised == Emit(old(Raised), old(Handlers) > 0 && old(groupPoll) != value, "GroupPoll") && Handlers == old(Handlers)
    {
      groupPoll := UpdateProperty(groupPoll, value, Equal, "GroupPoll");
    }

    method SetGroupWait(value: Duration)
      modifies this
      ensures Values() == old(Values()).(GroupWait := value)
      ensures Raised == Emit(old(Raised), old(Handlers) > 0 && old(groupWait) != value, "GroupWait") && Handlers == old(Handlers)
    {
      groupWait := UpdateProperty(groupWait, value, Equal, "GroupWait");
    }

    method SetIsGroupFailed(value: bool)
      modifies this
      ensures Values() == old(Values()).(IsGroupFailed := value)
      ensures Raised == Emit(old(Raised), old(Handlers) > 0 && old(isGroupFailed) != value, "IsGroupFailed") && Handlers == old(Handlers)
    {
      isGroupFailed := UpdateProperty(isGroupFailed, value, Equal, "IsGroupFailed");
    }

    method SetLocationName(value: Option<string>)
      modifies this
      ensures Values() == old(Values()).(LocationName := value)
      ensures Raised == Emit(old(Raised), old(Handlers) > 0 && old(locationName) != value, "LocationName") && Handlers == old(Handlers)
    {
      locationName := UpdateProperty(locationName, value, Equal, "LocationName");
    }

    method SetLocationAddress(value: Option<IPAddress>)
      modifies this
      ensures Values() == old(Values()).(LocationAddress := if SameAddress(old(locationAddress), value) then old(locationAddress) else value)
      ensures Raised == Emit(old(Raised), old(Handlers) > 0 && !SameAddress(old(locationAddress), value), "LocationAddress") && Handlers == old(Handlers)
    {
      locationAddress := UpdateProperty(locationAddress, value, SameAddress, "LocationAddress");
    }

    method SetIsLocationConnected(value: Option<bool>)
      modifies this
      ensures Values() == old(Values()).(IsLocationConnected := value)
      ensures Raised == Emit(old(Raised), old(Handlers) > 0 && old(isLocationConnected) != value, "IsLocationConnected") && Handlers == old(Handlers)
    {
      isLocationConnected := UpdateProperty(isLocationConnected, value, Equal, "IsLocationConnected");
    }

    method SetLocationRoundtripTime(value: Duration)
      modifies this
      ensures Values() == old(Values()).(LocationRoundtripTime := value)
      ensures Raised == Emit(old(Raised), old(Handlers) > 0 && old(locationRoundtripTime) != value, "LocationRoundtripTime") && Handlers == old(Handlers)
    {
      locationRoundtripTime := UpdateProperty(locationRoundtripTime, value, Equal, "LocationRoundtripTime");
    }

    method SetIsLocationUpToDate(value: bool)
      modifies this
      ensures Values() == old(Values()).(IsLocationUpToDate := value)
      ensures Raised == Emit(old(Raised), old(Handlers) > 0 && old(isLocationUpToDate) != value, "IsLocationUpToDate") && Handlers == old(Handlers)
    {
      isLocationUpToDate := UpdateProperty(isLocationUpToDate, value, Equal, "IsLocationUpToDate");
    }

    /**
     * Shows group state `g` and location state `l`: the group's name, timings
     * and failure flag, the location's name, address, verdict and round-trip
     * time, and whether the location was polled in the group's latest update.
     * One event is raised per property that changed, except the address, which
     * is assigned without its setter.
     */
    method Update(g: GroupRecord, l: LocationRecord)
      modifies this
      ensures Values() == Shown(g, l)
      ensures groupName == Some(g.PeerGroup.Name) && groupFail == g.PeerGroup.Fail
      ensures groupPoll == g.PeerGroup.Poll && groupWait == g.PeerGroup.Wait && isGroupFailed == g.fields.IsFailed
      ensures locationName == Some(l.Location.Name) && locationAddress == Some(l.Location.Address)
      ensures locationRoundtripTime == l.fields.RoundtripTime
      ensures isLocationUpToDate <==> l.fields.UpdateCounter == g.fields.UpdateCounter
      ensures Raised == Changes(old(Raised), old(Handlers) > 0, old(Values()), Shown(g, l))
      ensures Handlers == old(Handlers)
    {
      ShowGroup(g, Shown(g, l));
      ShowLocation(g, l, Shown(g, l));
    }

    /** The group half of `Update`. */
    method ShowGroup(g: GroupRecord, target: StatusValues)
      requires target.GroupName == Some(g.PeerGroup.Name) && target.GroupFail == g.PeerGroup.Fail
      requires target.GroupPoll == g.PeerGroup.Poll && target.GroupWait == g.PeerGroup.Wait
      requires target.IsGroupFailed == g.fields.IsFailed
      modifies this
      ensures Values() == old(Values()).(GroupName := target.GroupName, GroupFail := target.GroupFail,
                GroupPoll := target.GroupPoll, GroupWait := target.GroupWait, IsGroupFailed := target.IsGroupFailed)
      ensures Raised == GroupChanges(old(Raised), old(Handlers) > 0, old(Values()), target)
      ensures Handlers == old(Handlers)
    {
      var peerGroup := g.PeerGroup;
      SetGroupName(Some(peerGroup.Name));
      SetGroupFail(peerGroup.Fail);
      SetGroupPoll(peerGroup.Poll);
      SetGroupWait(peerGroup.Wait);
      SetIsGroupFailed(g.fields.IsFailed);
    }

    /** The location half of `Update`. */
    method ShowLocation(g: GroupRecord, l: LocationRecord, target: StatusValues)
      requires target.LocationName == Some(l.Location.Name) && target.LocationAddress == Some(l.Location.Address)
      requires target.IsLocationConnected == IsConnected(l.fields.Connection)
      requires target.LocationRoundtripTime == l.fields.RoundtripTime
      requires target.IsLocationUpToDate == (l.fields.UpdateCounter == g.fields.UpdateCounter)
      modifies this
      ensures Values() == old(Values()).(LocationName := target.LocationName, LocationAddress := target.LocationAddress,
                IsLocationConnected := target.IsLocationConnected, LocationRoundtripTime := target.LocationRoundtripTime,
                IsLocationUpToDate := target.IsLocationUpToDate)
      ensures Raised == LocationChanges(old(Raised), old(Handlers) > 0, old(Values()), target)
      ensures Handlers == old(Handlers)
    {
      var location := l.Location;
      SetLocationName(Some(location.Name));
      locationAddress := Some(location.Address);
      SetIsLocationConnected(IsConnected(l.fields.Connection));
      SetLocationRoundtripTime(l.fields.RoundtripTime);
      SetIsLocationUpToDate(l.fields.UpdateCounter == g.fields.UpdateCounter);
    }
  }
}
