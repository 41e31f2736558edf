/**
 * The runtime state of one location: its last verdict, round-trip time, the
 * group update counter of its last poll, and when it was last polled.
 */
module LocationStates {

  import opened Wrappers
  import opened Basics
  import opened Enumerations
  import opened PeerGroups
  import opened Locations

  /**
   * One probe's outcome: `reply` is true for a successful echo, false for a
   * failed one and null when the probe could not be made at all.
   */
  datatype Ping = Ping(reply: Option<bool>, roundtrip: Duration)

  /** The probe, an oracle: the outcome of pinging an address with a timeout at a time. */
  type Probe = (IPAddress, Duration, Time) -> Ping

  /** The mutable fields of a `LocationState`. */
  datatype LocationFields = LocationFields(Connection: ConnectionState, RoundtripTime: Duration, UpdateCounter: int, lastPolled: Time)

  /** A new state: counter -2 (never updated), `Unavailable`, polled at `DateTime.MinValue`. */
  const InitialFields: LocationFields := LocationFields(DefaultConnection, 0, -2, MinTime)

  /** What `Update` returns (`bool?`) and the fields it leaves. */
  datatype PollOutcome = PollOutcome(result: Option<bool>, fields: LocationFields)

  /** The verdict a probe reply gives. */
  function ReplyConnection(reply: Option<bool>): (c: ConnectionState)
    ensures c == Connected <==> reply == Some(true)
    ensures c == Disconnected <==> reply == Some(false)
    ensures c == Unavailable <==> reply.None?
  {
    match reply
    case Some(true) => Connected
    case Some(false) => Disconnected
    case None => Unavailable
  }

  /**
   * One `Update(utcNow, counter, simulateConnection)` of a location in the state
   * `f`: the specification of `LocationState.Update`.
   */
  function Poll(location: Location, f: LocationFields, utcNow: Time, counter: int,
                simulateConnection: Option<ConnectionState>, probe: Probe): PollOutcome
  {
    var peerGroup := location.PeerGroup;
    if !CanPoll(peerGroup, utcNow, f.lastPolled) then PollOutcome(None, f)
    else
      var ping := probe(location.Address, peerGroup.Wait, utcNow);
      var connection := if simulateConnection.Some? then simulateConnection.value else ReplyConnection(ping.reply);
      var roundtripTime := if simulateConnection.Some? then 0 else ping.roundtrip;
      PollOutcome(Some(connection != f.Connection), LocationFields(connection, roundtripTime, counter, utcNow))
  }

  /** Too soon after the last poll: nothing is probed, nothing changes, the result is null. */
  lemma PollThrottled(location: Location, f: LocationFields, utcNow: Time, counter: int,
                      simulateConnection: Option<ConnectionState>, probe: Probe)
    requires !CanPoll(location.PeerGroup, utcNow, f.lastPolled)
    ensures Poll(location, f, utcNow, counter, simulateConnection, probe) == PollOutcome(None, f)
  {
  }

  /**
   * A polled update records the counter and the time, and reports whether the
   * verdict changed.
   */
  lemma PollRecords(location: Location, f: LocationFields, utcNow: Time, counter: int,
                    simulateConnection: Option<ConnectionState>, probe: Probe)
    requires CanPoll(location.PeerGroup, utcNow, f.lastPolled)
    ensures var o := Poll(location, f, utcNow, counter, simulateConnection, probe);
            && o.fields.UpdateCounter == counter
            && o.fields.lastPolled == utcNow
            && o.result == Some(o.fields.Connection != f.Connection)
  {
  }

  /** A simulated connection bypasses the probe: that verdict, with a zero round trip. */
  lemma PollSimulated(location: Location, f: LocationFields, utcNow: Time, counter: int,
                      simulated: ConnectionState, probe: Probe)
    requires CanPoll(location.PeerGroup, utcNow, f.lastPolled)
    ensures var o := Poll(location, f, utcNow, counter, Some(simulated), probe);
            o.fields.Connection == simulated && o.fields.RoundtripTime == 0
  {
  }

  /**
   * Without a simulated connection the probe decides, with the group's wait as
   * its timeout: true is Connected, false Disconnected, null Unavailable.
   */
  lemma PollProbed(location: Location, f: LocationFields, utcNow: Time, counter: int, probe: Probe)
    requires CanPoll(location.PeerGroup, utcNow, f.lastPolled)
    ensures var o := Poll(location, f, utcNow, counter, None, probe);
            var ping := probe(location.Address, location.PeerGroup.Wait, utcNow);
            && (o.fields.Connection == Connected <==> ping.reply == Some(true))
            && (o.fields.Connection == Disconnected <==> ping.reply == Some(false))
            && (o.fields.Connection == Unavailable <==> ping.reply.None?)
            && o.fields.RoundtripTime == ping.roundtrip
  {
  }

  /** An immutable copy of a location state (`ShallowCopy`). */
  datatype LocationRecord = LocationRecord(Location: Location, fields: LocationFields)

  class LocationState {

    /** The location is get-only: it is never modified. */
    const Location: Location

    var Connection: ConnectionState
    var RoundtripTime: Duration
    var UpdateCounter: int
    var lastPolled: Time

    function Fields(): LocationFields
      reads this
    {
      LocationFields(Connection, RoundtripTime, UpdateCounter, lastPolled)
    }

    constructor (location: Location)
      ensures Location == location
      ensures Fields() == InitialFields
    {
      Location := location;
      Connection := DefaultConnection;
      RoundtripTime := 0;
      UpdateCounter := -2;
      lastPolled := MinTime;
    }

    /** Polls the location if its group allows it; null when it did not. */
    method Update(utcNow: Time, counter: int, simulateConnection: Option<ConnectionState>, probe: Probe)
      returns (result: Option<bool>)
      modifies this
      ensures PollOutcome(result, Fields()) == Poll(Location, old(Fields()), utcNow, counter, simulateConnection, probe)
    {
      result := None;
      var peerGroup := Location.PeerGroup;
      if CanPoll(peerGroup, utcNow, lastPolled) {
        var priorConnection := Connection;
        var roundtripTime := 0;
        if simulateConnection.Some? {
          Connection := simulateConnection.value;
        } else {
          var ping := probe(Location.Address, peerGroup.Wait, utcNow);
          roundtripTime := ping.roundtrip;
          match ping.reply {
            case Some(true) => Connection := Connected;
            case Some(false) => Connection := Disconnected;
            case None => Connection := Unavailable;
          }
        }
        RoundtripTime := roundtripTime;
        UpdateCounter := counter;
        result := Some(Connection != priorConnection);
        lastPolled := utcNow;
      }
    }

    function ShallowCopy(): (r: LocationRecord)
      reads this
      ensures r.Location == Location && r.fields == Fields()
    {
      LocationRecord(Location, Fields())
    }
  }

  /** The fields of each location state in `locations`, by object. */
  type Store = map<LocationState, LocationFields>

  function FieldsOf(locations: seq<LocationState>): (r: Store)
    reads locations
    ensures forall l :: l in locations ==> l in r && r[l] == l.Fields()
    ensures forall l :: l in r ==> l in locations
  {
    map l | l in locations :: l.Fields()
  }

  /** A store that agrees with every location state, and has no other keys, is their fields. */
  lemma FieldsOfAgrees(locations: seq<LocationState>, store: Store)
    requires forall l :: l in store <==> l in locations
    requires forall l :: l in locations ==> l.Fields() == store[l]
    ensures store == FieldsOf(locations)
  {
  }
}
