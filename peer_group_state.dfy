/**
 * The runtime state of one peer group: the aggregate verdict of its locations
 * and the failure flag with its hysteresis.
 */
module PeerGroupStates {

  import opened Wrappers
  import opened Basics
  import opened Enumerations
  import opened PeerGroups
  import opened Locations
  import opened LocationStates
  import opened Arithmetic
  import Sequences

  /** The group's update counter: -1 before the first update, then 0, 1, ... */
  type GroupCounter = c: int | -1 <= c witness -1

  /** The mutable fields of a `PeerGroupState`. */
  datatype GroupFields = GroupFields(
    Connection: ConnectionState,
    UpdateCounter: GroupCounter,
    ConnectionChanged: Option<Time>,
    IsFailed: bool,
    IsFailedChanged: Option<Time>,
    LastUpdated: Time,
    LastUpdateRequest: Time)

  const InitialGroupFields: GroupFields := GroupFields(DefaultConnection, -1, None, false, None, MinTime, MinTime)

  /** One step of the location scan: which index was updated, what it returned, its verdict afterwards. */
  datatype Visit = Visit(index: nat, result: Option<bool>, connection: ConnectionState)

  /**
   * The outcome of scanning the locations from step `i` on: the last non-null
   * verdict (`peerGroupConnection`), the location fields afterwards, and the visits.
   */
  datatype ScanResult = ScanResult(connection: Option<ConnectionState>, store: Store, visits: seq<Visit>)

  predicate Covers(locations: seq<LocationState>, store: Store)
  {
    forall l :: l in locations ==> l in store
  }

  /**
   * Steps `i`, `i+1`, ... of the `for` loop of `Update`: step `i` updates the
   * location at `(counter + i) % n`; a non-null result makes its verdict the
   * candidate, and a Connected candidate ends the scan.
   */
  function Scan(locations: seq<LocationState>, store: Store, counter: nat, i: nat, utcNow: Time,
                simulateConnection: Option<ConnectionState>, probe: Probe): (r: ScanResult)
    requires i <= |locations| && Covers(locations, store)
    ensures Covers(locations, r.store)
    decreases |locations| - i
  {
    if i == |locations| then ScanResult(None, store, [])
    else
      var index := (counter + i) % |locations|;
      var l := locations[index];
      var o := Poll(l.Location, store[l], utcNow, counter, simulateConnection, probe);
      var store' := store[l := o.fields];
      var visit := Visit(index, o.result, o.fields.Connection);
      if o.result.Some? && o.fields.Connection == Connected then
        ScanResult(Some(Connected), store', [visit])
      else
        var rest := Scan(locations, store', counter, i + 1, utcNow, simulateConnection, probe);
        var candidate := if o.result.Some? then Some(o.fields.Connection) else None;
        ScanResult(if rest.connection.Some? then rest.connection else candidate, rest.store, [visit] + rest.visits)
  }

  /** The verdict of a scan whose earlier steps left the candidate `acc`. */
  function Joined(acc: Option<ConnectionState>, rest: ScanResult): Option<ConnectionState>
  {
    if rest.connection.Some? then rest.connection else acc
  }

  /**
   * The loop of `PeerGroupState.Update` advances the scan: with candidate `acc`
   * so far, polling step `i` with outcome `o` either ends the scan (a Connected
   * verdict) or leaves the same verdict and store to the steps from `i + 1`.
   */
  lemma ScanAdvance(locations: seq<LocationState>, store: Store, counter: nat, i: nat, utcNow: Time,
                    simulateConnection: Option<ConnectionState>, probe: Probe,
                    acc: Option<ConnectionState>, o: PollOutcome)
    requires i < |locations| && Covers(locations, store)
    requires var l := locations[(counter + i) % |locations|];
             o == Poll(l.Location, store[l], utcNow, counter, simulateConnection, probe)
    ensures var store' := store[locations[(counter + i) % |locations|] := o.fields];
            var acc' := if o.result.Some? then Some(o.fields.Connection) else acc;
            var r := Scan(locations, store, counter, i, utcNow, simulateConnection, probe);
            if o.result.Some? && o.fields.Connection == Connected then
              Joined(acc, r) == acc' && r.store == store'
            else
              var r' := Scan(locations, store', counter, i + 1, utcNow, simulateConnection, probe);
              Joined(acc, r) == Joined(acc', r') && r.store == r'.store
  {
  }

  /** The failure flag after an update (the hysteresis rule). */
  function NextIsFailed(connection: ConnectionState, isFailed: bool, connectionChanged: Option<Time>,
                        utcNow: Time, fail: Duration): bool
  {
    if connection == Connected || connection == Unavailable then false
    else if !isFailed && (connectionChanged.None? || utcNow >= connectionChanged.value + fail) then true
    else isFailed
  }

  /** Lines 84-92 of `Update`: the scan's verdict, if any, becomes the group's; a change is stamped. */
  function Adopt(f: GroupFields, peerGroupConnection: Option<ConnectionState>, utcNow: Time): GroupFields
  {
    var connection := if peerGroupConnection.Some? then peerGroupConnection.value else f.Connection;
    f.(Connection := connection,
       ConnectionChanged := if connection != f.Connection then Some(utcNow) else f.ConnectionChanged)
  }

  /** Lines 94-107 of `Update`: the hysteresis rule; a flip of the failure flag is stamped. */
  function Settle(f: GroupFields, fail: Duration, utcNow: Time): GroupFields
  {
    var isFailed := NextIsFailed(f.Connection, f.IsFailed, f.ConnectionChanged, utcNow, fail);
    f.(IsFailed := isFailed,
       IsFailedChanged := if isFailed != f.IsFailed then Some(utcNow) else f.IsFailedChanged)
  }

  datatype GroupOutcome = GroupOutcome(fields: GroupFields, store: Store, visits: seq<Visit>)

  /** One `Update(utcNow, locations, simulateConnection)`: the specification of `PeerGroupState.Update`. */
  function GroupUpdate(peerGroup: PeerGroup, f: GroupFields, locations: seq<LocationState>, store: Store,
                       utcNow: Time, simulateConnection: Option<ConnectionState>, probe: Probe): (r: GroupOutcome)
    requires Covers(locations, store)
    ensures Covers(locations, r.store)
  {
    if !CanPoll(peerGroup, utcNow, f.LastUpdated) then
      GroupOutcome(f.(LastUpdateRequest := utcNow), store, [])
    else
      var started := f.(LastUpdateRequest := utcNow, LastUpdated := utcNow, UpdateCounter := f.UpdateCounter + 1);
      var scan := Scan(locations, store, started.UpdateCounter, 0, utcNow, simulateConnection, probe);
      GroupOutcome(Settle(Adopt(started, scan.connection, utcNow), peerGroup.Fail, utcNow), scan.store, scan.visits)
  }

  lemma GroupUpdatePolled(peerGroup: PeerGroup, f: GroupFields, started: GroupFields, locations: seq<LocationState>, store: Store,
                          utcNow: Time, simulateConnection: Option<ConnectionState>, probe: Probe)
    requires Covers(locations, store) && CanPoll(peerGroup, utcNow, f.LastUpdated)
    requires started == f.(LastUpdateRequest := utcNow, LastUpdated := utcNow, UpdateCounter := f.UpdateCounter + 1)
    ensures var scan := Scan(locations, store, started.UpdateCounter, 0, utcNow, simulateConnection, probe);
            GroupUpdate(peerGroup, f, locations, store, utcNow, simulateConnection, probe)
            == GroupOutcome(Settle(Adopt(started, scan.connection, utcNow), peerGroup.Fail, utcNow), scan.store, scan.visits)
  {
  }

  /** An immutable copy of a group state (`ShallowCopy`). */
  datatype GroupRecord = GroupRecord(PeerGroup: PeerGroup, fields: GroupFields)

  class PeerGroupState {

    const PeerGroup: PeerGroup

    var Connection: ConnectionState
    var UpdateCounter: GroupCounter
    var ConnectionChanged: Option<Time>
    var IsFailed: bool
    var IsFailedChanged: Option<Time>
    var LastUpdated: Time
    var LastUpdateRequest: Time

    function Fields(): GroupFields
      reads this
    {
      GroupFields(Connection, UpdateCounter, ConnectionChanged, IsFailed, IsFailedChanged, LastUpdated, LastUpdateRequest)
    }

    constructor (peerGroup: PeerGroup)
      ensures PeerGroup == peerGroup
      ensures Fields() == InitialGroupFields
    {
      PeerGroup := peerGroup;
      Connection := DefaultConnection;
      UpdateCounter := -1;
      ConnectionChanged := None;
      IsFailed := false;
      IsFailedChanged := None;
      LastUpdated := MinTime;
      LastUpdateRequest := MinTime;
    }

    /** Polls the group's locations, round-robin, and updates the verdict and the failure flag. */
    method Update(utcNow: Time, locations: seq<LocationState>, simulateConnection: Option<ConnectionState>, probe: Probe)
      modifies this, locations
      ensures var r := GroupUpdate(PeerGroup, old(Fields()), locations, old(FieldsOf(locations)), utcNow, simulateConnection, probe);
              && Fields() == r.fields
              && forall l :: l in locations ==> l.Fields() == r.store[l]
    {
      ghost var f0 := Fields();
      ghost var s0 := FieldsOf(locations);
      LastUpdateRequest := utcNow;
      if CanPoll(PeerGroup, utcNow, LastUpdated) {
        LastUpdated := utcNow;
        UpdateCounter := UpdateCounter + 1;
        var counter: nat := UpdateCounter;

        ghost var started := Fields();
        assert FieldsOf(locations) == s0;
        var peerGroupConnection := ScanLocations(locations, counter, utcNow, simulateConnection, probe);
        AdoptConnection(peerGroupConnection, utcNow);
        UpdateIsFailed(utcNow);
        GroupUpdatePolled(PeerGroup, f0, started, locations, s0, utcNow, simulateConnection, probe);
      }
    }

    /** Lines 84-92 of `Update`. */
    method AdoptConnection(peerGroupConnection: Option<ConnectionState>, utcNow: Time)
      modifies this
      ensures Fields() == Adopt(old(Fields()), peerGroupConnection, utcNow)
    {
      var priorConnection := Connection;
      if peerGroupConnection.Some? {
        Connection := peerGroupConnection.value;
      }

      if Connection != priorConnection {
        ConnectionChanged := Some(utcNow);
      }
    }

    /** Lines 94-107 of `Update`. */
    method UpdateIsFailed(utcNow: Time)
      modifies this
      ensures Fields() == Settle(old(Fields()), PeerGroup.Fail, utcNow)
    {
      var wasFailed := IsFailed;
      if Connection == Connected || Connection == Unavailable {
        IsFailed := false;
      } else if !IsFailed && (ConnectionChanged.None? || utcNow >= ConnectionChanged.value + PeerGroup.Fail) {
        IsFailed := true;
      }

      if IsFailed != wasFailed {
        IsFailedChanged := Some(utcNow);
      }
    }

    /**
     * The `for` loop of `Update`: updates the locations round-robin from
     * `counter % n` and stops after the first one that is updated and Connected.
     */
    static method ScanLocations(locations: seq<LocationState>, counter: nat, utcNow: Time,
                                simulateConnection: Option<ConnectionState>, probe: Probe)
      returns (peerGroupConnection: Option<ConnectionState>)
      modifies locations
      ensures var r := Scan(locations, old(FieldsOf(locations)), counter, 0, utcNow, simulateConnection, probe);
              && r.connection == peerGroupConnection
              && forall l :: l in locations ==> l.Fields() == r.store[l]
    {
      ghost var store := FieldsOf(locations);
      ghost var total := Scan(locations, store, counter, 0, utcNow, simulateConnection, probe);
      peerGroupConnection := None;
      var numLocations := |locations|;
      var i := 0;
      while i < numLocations
        invariant 0 <= i <= numLocations
        invariant forall l :: l in store <==> l in locations
        invariant forall l :: l in locations ==> l.Fields() == store[l]
        invariant var rest := Scan(locations, store, counter, i, utcNow, simulateConnection, probe);
                  total.connection == Joined(peerGroupConnection, rest) && total.store == rest.store
      {
        var locationIndex := (counter + i) % numLocations;
        var locationState := locations[locationIndex];
        var wasLocationUpdated;
        ghost var store2;
        wasLocationUpdated, store2 := VisitLocation(locations, counter, i, utcNow, simulateConnection, probe, store);
        ScanAdvance(locations, store, counter, i, utcNow, simulateConnection, probe,
                    peerGroupConnection, PollOutcome(wasLocationUpdated, locationState.Fields()));
        store := store2;
        if wasLocationUpdated.Some? {
          peerGroupConnection := Some(locationState.Connection);
          if locationState.Connection == Connected {
            break;
          }
        }
        i := i + 1;
      }
    }

    /** `locationState.Update(...)` for the location the scan visits at step `i`; the store follows it. */
    static method VisitLocation(locations: seq<LocationState>, counter: nat, i: nat, utcNow: Time,
                                simulateConnection: Option<ConnectionState>, probe: Probe, ghost store: Store)
      returns (wasLocationUpdated: Option<bool>, ghost store2: Store)
      requires i < |locations|
      requires forall l :: l in store <==> l in locations
      requires forall l :: l in locations ==> l.Fields() == store[l]
      modifies locations[(counter + i) % |locations|]
      ensures var l := locations[(counter + i) % |locations|];
              && PollOutcome(wasLocationUpdated, l.Fields()) == Poll(l.Location, store[l], utcNow, counter, simulateConnection, probe)
              && store2 == store[l := l.Fields()]
      ensures forall l :: l in store2 <==> l in locations
      ensures forall l :: l in locations ==> l.Fields() == store2[l]
    {
      var locationState := locations[(counter + i) % |locations|];
      wasLocationUpdated := locationState.Update(utcNow, counter, simulateConnection, probe);
      store2 := store[locationState := locationState.Fields()];
    }

    function ShallowCopy(): (r: GroupRecord)
      reads this
      ensures r.PeerGroup == PeerGroup && r.fields == Fields()
    {
      GroupRecord(PeerGroup, Fields())
    }
  }

  // Properties of the location scan.

  /** A visit whose location was updated and found Connected. */
  predicate ReportedConnected(v: Visit)
  {
    v.result.Some? && v.connection == Connected
  }

  /**
   * The verdict of the last visit with a non-null result, if any: an
   * independent statement of the "last non-null result" rule.
   */
  function LastReported(visits: seq<Visit>): Option<ConnectionState>
    decreases |visits|
  {
    if |visits| == 0 then None
    else if visits[|visits| - 1].result.Some? then Some(visits[|visits| - 1].connection)
    else LastReported(visits[..|visits| - 1])
  }

  /**
   * `LastReported` is null exactly when no visit has a non-null result, and
   * otherwise is the verdict of a visit with a non-null result after which
   * every result is null.
   */
  lemma {:induction false} LastReportedIsLast(visits: seq<Visit>)
    ensures LastReported(visits).None? <==> forall j :: 0 <= j < |visits| ==> visits[j].result.None?
    ensures LastReported(visits).Some? ==>
              exists j :: && 0 <= j < |visits|
                          && visits[j].result.Some? && visits[j].connection == LastReported(visits).value
                          && forall k :: j < k < |visits| ==> visits[k].result.None?
    decreases |visits|
  {
    if |visits| > 0 {
      var n := |visits|;
      if visits[n - 1].result.None? {
        var front := visits[..n - 1];
        LastReportedIsLast(front);
        assert forall j :: 0 <= j < n - 1 ==> front[j] == visits[j];
        if LastReported(front).Some? {
          var j :| && 0 <= j < |front|
                   && front[j].result.Some? && front[j].connection == LastReported(front).value
                   && forall k :: j < k < |front| ==> front[k].result.None?;
          assert forall k :: j < k < n ==> visits[k].result.None?;
        }
      }
    }
  }

  lemma {:induction false} LastReportedCons(v: Visit, rest: seq<Visit>)
    ensures LastReported([v] + rest)
            == if LastReported(rest).Some? then LastReported(rest)
               else if v.result.Some? then Some(v.connection) else None
    decreases |rest|
  {
    if |rest| == 0 {
      assert [v] + rest == [v];
      assert [v][..0] == [];
    } else {
      var n := |rest|;
      assert ([v] + rest)[..n] == [v] + rest[..n - 1];
      if rest[n - 1].result.None? {
        LastReportedCons(v, rest[..n - 1]);
      }
    }
  }

  /** Step `j` of a scan from step `i` updates index `(counter + i + j) % n`; there are at most `n - i` steps. */
  lemma {:induction false} ScanIndices(locations: seq<LocationState>, store: Store, counter: nat, i: nat, utcNow: Time,
                                       simulateConnection: Option<ConnectionState>, probe: Probe)
    requires i <= |locations| && Covers(locations, store)
    ensures var r := Scan(locations, store, counter, i, utcNow, simulateConnection, probe);
            && |r.visits| <= |locations| - i
            && forall j :: 0 <= j < |r.visits| ==> r.visits[j].index == (counter + i + j) % |locations|
    decreases |locations| - i
  {
    if i < |locations| {
      var index := (counter + i) % |locations|;
      var l := locations[index];
      var o := Poll(l.Location, store[l], utcNow, counter, simulateConnection, probe);
      if !(o.result.Some? && o.fields.Connection == Connected) {
        var store' := store[l := o.fields];
        var rest := Scan(locations, store', counter, i + 1, utcNow, simulateConnection, probe);
        ScanIndices(locations, store', counter, i + 1, utcNow, simulateConnection, probe);
        var r := Scan(locations, store, counter, i, utcNow, simulateConnection, probe);
        assert r.visits == [Visit(index, o.result, o.fields.Connection)] + rest.visits;
        forall j | 1 <= j < |r.visits|
          ensures r.visits[j].index == (counter + i + j) % |locations|
        {
          assert r.visits[j] == rest.visits[j - 1];
        }
      }
    }
  }

  /** A scan visits each index at most once, and every index it visits is in range. */
  lemma ScanVisitsDistinct(locations: seq<LocationState>, store: Store, counter: nat,
                           utcNow: Time, simulateConnection: Option<ConnectionState>, probe: Probe)
    requires Covers(locations, store)
    ensures var r := Scan(locations, store, counter, 0, utcNow, simulateConnection, probe);
            && (forall j :: 0 <= j < |r.visits| ==> r.visits[j].index < |locations|)
            && (forall j1, j2 :: 0 <= j1 < j2 < |r.visits| ==> r.visits[j1].index != r.visits[j2].index)
  {
    var r := Scan(locations, store, counter, 0, utcNow, simulateConnection, probe);
    ScanIndices(locations, store, counter, 0, utcNow, simulateConnection, probe);
    forall j1, j2 | 0 <= j1 < j2 < |r.visits|
      ensures r.visits[j1].index != r.visits[j2].index
    {
      ModDistinct(counter, j1, j2, |locations|);
    }
  }

  /**
   * The scan stops right after the first visit that reports Connected: no
   * earlier visit does, and a scan that ends before the last step ends on one.
   */
  lemma {:induction false} ScanStopsAtConnected(locations: seq<LocationState>, store: Store, counter: nat, i: nat,
                                                utcNow: Time, simulateConnection: Option<ConnectionState>, probe: Probe)
    requires i <= |locations| && Covers(locations, store)
    ensures var r := Scan(locations, store, counter, i, utcNow, simulateConnection, probe);
            && (forall j :: 0 <= j < |r.visits| - 1 ==> !ReportedConnected(r.visits[j]))
            && (|r.visits| < |locations| - i ==> 0 < |r.visits| && ReportedConnected(r.visits[|r.visits| - 1]))
    decreases |locations| - i
  {
    if i < |locations| {
      var index := (counter + i) % |locations|;
      var l := locations[index];
      var o := Poll(l.Location, store[l], utcNow, counter, simulateConnection, probe);
      if !(o.result.Some? && o.fields.Connection == Connected) {
        var store' := store[l := o.fields];
        var rest := Scan(locations, store', counter, i + 1, utcNow, simulateConnection, probe);
        ScanStopsAtConnected(locations, store', counter, i + 1, utcNow, simulateConnection, probe);
        var r := Scan(locations, store, counter, i, utcNow, simulateConnection, probe);
        assert r.visits == [Visit(index, o.result, o.fields.Connection)] + rest.visits;
        forall j | 1 <= j < |r.visits| - 1
          ensures !ReportedConnected(r.visits[j])
        {
          assert r.visits[j] == rest.visits[j - 1];
        }
      }
    }
  }

  /** The scan's verdict is the verdict of the last visit with a non-null result. */
  lemma {:induction false} ScanVerdict(locations: seq<LocationState>, store: Store, counter: nat, i: nat,
                                       utcNow: Time, simulateConnection: Option<ConnectionState>, probe: Probe)
    requires i <= |locations| && Covers(locations, store)
    ensures var r := Scan(locations, store, counter, i, utcNow, simulateConnection, probe);
            r.connection == LastReported(r.visits)
    decreases |locations| - i
  {
    if i < |locations| {
      var index := (counter + i) % |locations|;
      var l := locations[index];
      var o := Poll(l.Location, store[l], utcNow, counter, simulateConnection, probe);
      var visit := Visit(index, o.result, o.fields.Connection);
      var r := Scan(locations, store, counter, i, utcNow, simulateConnection, probe);
      if o.result.Some? && o.fields.Connection == Connected {
        assert r.visits == [visit];
        assert LastReported([visit]) == Some(Connected);
      } else {
        var store' := store[l := o.fields];
        var rest := Scan(locations, store', counter, i + 1, utcNow, simulateConnection, probe);
        assert r.visits == [visit] + rest.visits;
        ScanVerdict(locations, store', counter, i + 1, utcNow, simulateConnection, probe);
        LastReportedCons(visit, rest.visits);
      }
    }
  }

  /** Short circuit: the scan's verdict is Connected exactly when some visit reports Connected. */
  lemma ScanConnectedIff(locations: seq<LocationState>, store: Store, counter: nat,
                         utcNow: Time, simulateConnection: Option<ConnectionState>, probe: Probe)
    requires Covers(locations, store)
    ensures var r := Scan(locations, store, counter, 0, utcNow, simulateConnection, probe);
            r.connection == Some(Connected) <==> exists j :: 0 <= j < |r.visits| && ReportedConnected(r.visits[j])
  {
    var r := Scan(locations, store, counter, 0, utcNow, simulateConnection, probe);
    ScanVerdict(locations, store, counter, 0, utcNow, simulateConnection, probe);
    ScanStopsAtConnected(locations, store, counter, 0, utcNow, simulateConnection, probe);
    LastReportedIsLast(r.visits);
    if exists j :: 0 <= j < |r.visits| && ReportedConnected(r.visits[j]) {
      var j :| 0 <= j < |r.visits| && ReportedConnected(r.visits[j]);
      assert j == |r.visits| - 1;
      assert r.visits[..|r.visits|][|r.visits| - 1] == r.visits[j];
    }
  }

  /** A location state that no visit updated keeps its fields. */
  lemma {:induction false} ScanLeavesUnvisited(locations: seq<LocationState>, store: Store, counter: nat, i: nat,
                                               utcNow: Time, simulateConnection: Option<ConnectionState>, probe: Probe,
                                               l: LocationState)
    requires i <= |locations| && Covers(locations, store) && l in store
    requires var r := Scan(locations, store, counter, i, utcNow, simulateConnection, probe);
             forall j :: 0 <= j < |r.visits| && r.visits[j].index < |locations| ==> locations[r.visits[j].index] != l
    ensures var r := Scan(locations, store, counter, i, utcNow, simulateConnection, probe);
            l in r.store && r.store[l] == store[l]
    decreases |locations| - i
  {
    if i < |locations| {
      var index := (counter + i) % |locations|;
      var m := locations[index];
      var o := Poll(m.Location, store[m], utcNow, counter, simulateConnection, probe);
      var r := Scan(locations, store, counter, i, utcNow, simulateConnection, probe);
      assert r.visits[0].index == index;
      if !(o.result.Some? && o.fields.Connection == Connected) {
        var store' := store[m := o.fields];
        var rest := Scan(locations, store', counter, i + 1, utcNow, simulateConnection, probe);
        assert r.visits == [r.visits[0]] + rest.visits;
        forall j | 0 <= j < |rest.visits| && rest.visits[j].index < |locations|
          ensures locations[rest.visits[j].index] != l
        {
          assert rest.visits[j] == r.visits[j + 1];
        }
        ScanLeavesUnvisited(locations, store', counter, i + 1, utcNow, simulateConnection, probe, l);
      }
    }
  }

  /** The location at step `j` of a scan from step `i` is due for a poll in `store`. */
  predicate DueAt(locations: seq<LocationState>, store: Store, counter: nat, i: nat, j: nat, utcNow: Time)
    requires Covers(locations, store) && |locations| > 0
  {
    var l := locations[(counter + i + j) % |locations|];
    CanPoll(l.Location.PeerGroup, utcNow, store[l].lastPolled)
  }

  /** The probe answers true for the location at step `j` of a scan from step `i`. */
  predicate RepliesAt(locations: seq<LocationState>, counter: nat, i: nat, j: nat, utcNow: Time, probe: Probe)
    requires |locations| > 0
  {
    var l := locations[(counter + i + j) % |locations|];
    probe(l.Location.Address, l.Location.PeerGroup.Wait, utcNow).reply == Some(true)
  }

  lemma {:induction false} ScanFindsReply(locations: seq<LocationState>, store: Store, counter: nat, i: nat,
                                          utcNow: Time, probe: Probe)
    requires i < |locations| && Covers(locations, store) && Sequences.Distinct(locations)
    requires forall j :: 0 <= j < |locations| - i ==> DueAt(locations, store, counter, i, j, utcNow)
    requires exists j :: 0 <= j < |locations| - i && RepliesAt(locations, counter, i, j, utcNow, probe)
    ensures Scan(locations, store, counter, i, utcNow, None, probe).connection == Some(Connected)
    decreases |locations| - i
  {
    var n := |locations|;
    var index := (counter + i) % n;
    var l := locations[index];
    assert DueAt(locations, store, counter, i, 0, utcNow);
    var o := Poll(l.Location, store[l], utcNow, counter, None, probe);
    if !(o.result.Some? && o.fields.Connection == Connected) {
      assert !RepliesAt(locations, counter, i, 0, utcNow, probe);
      var store' := store[l := o.fields];
      var next := i + 1;
      forall j | 0 <= j < n - next
        ensures DueAt(locations, store', counter, next, j, utcNow)
      {
        assert DueAt(locations, store, counter, i, j + 1, utcNow);
        ModDistinct(counter + i, 0, j + 1, n);
        assert counter + i + (j + 1) == counter + (i + 1) + j;
      }
      var j :| 0 <= j < n - i && RepliesAt(locations, counter, i, j, utcNow, probe);
      assert RepliesAt(locations, counter, i + 1, j - 1, utcNow, probe) by {
        assert counter + i + j == counter + (i + 1) + (j - 1);
      }
      ScanFindsReply(locations, store', counter, i + 1, utcNow, probe);
    }
  }

  /**
   * Short circuit from the probes' side: when every location of a list without
   * repeats is due and the probe answers true for one of them, the scan's
   * verdict is Connected, whatever index the rotation starts at.
   */
  lemma ScanConnectedWhenOneReplies(locations: seq<LocationState>, store: Store, counter: nat,
                                    utcNow: Time, probe: Probe, k: nat)
    requires Covers(locations, store) && Sequences.Distinct(locations) && k < |locations|
    requires forall l :: l in locations ==> CanPoll(l.Location.PeerGroup, utcNow, store[l].lastPolled)
    requires probe(locations[k].Location.Address, locations[k].Location.PeerGroup.Wait, utcNow).reply == Some(true)
    ensures Scan(locations, store, counter, 0, utcNow, None, probe).connection == Some(Connected)
  {
    var j := ModReaches(counter, k, |locations|);
    assert RepliesAt(locations, counter, 0, j, utcNow, probe);
    forall j' | 0 <= j' < |locations|
      ensures DueAt(locations, store, counter, 0, j', utcNow)
    {
      assert locations[(counter + 0 + j') % |locations|] in locations;
    }
    ScanFindsReply(locations, store, counter, 0, utcNow, probe);
  }

  // Properties of a group update.

  /** Throttled: only `LastUpdateRequest` changes, and no location is visited. */
  lemma GroupThrottled(peerGroup: PeerGroup, f: GroupFields, locations: seq<LocationState>, store: Store,
                       utcNow: Time, simulateConnection: Option<ConnectionState>, probe: Probe)
    requires Covers(locations, store) && !CanPoll(peerGroup, utcNow, f.LastUpdated)
    ensures GroupUpdate(peerGroup, f, locations, store, utcNow, simulateConnection, probe)
            == GroupOutcome(f.(LastUpdateRequest := utcNow), store, [])
  {
  }

  /** Every call records the request; a polled one records the update and advances the counter by one. */
  lemma GroupBookkeeping(peerGroup: PeerGroup, f: GroupFields, locations: seq<LocationState>, store: Store,
                         utcNow: Time, simulateConnection: Option<ConnectionState>, probe: Probe)
    requires Covers(locations, store)
    ensures var r := GroupUpdate(peerGroup, f, locations, store, utcNow, simulateConnection, probe);
            && r.fields.LastUpdateRequest == utcNow
            && (CanPoll(peerGroup, utcNow, f.LastUpdated) ==>
                  && r.fields.LastUpdated == utcNow
                  && r.fields.UpdateCounter == f.UpdateCounter + 1
                  && r.visits == Scan(locations, store, f.UpdateCounter + 1, 0, utcNow, simulateConnection, probe).visits)
  {
  }

  /**
   * The group's verdict after a polled update: unchanged when no location
   * returned non-null (in particular with no locations), otherwise the verdict
   * of the last visit with a non-null result.
   */
  lemma GroupVerdict(peerGroup: PeerGroup, f: GroupFields, locations: seq<LocationState>, store: Store,
                     utcNow: Time, simulateConnection: Option<ConnectionState>, probe: Probe)
    requires Covers(locations, store) && CanPoll(peerGroup, utcNow, f.LastUpdated)
    ensures var r := GroupUpdate(peerGroup, f, locations, store, utcNow, simulateConnection, probe);
            && (|locations| == 0 ==> r.visits == [])
            && ((forall j :: 0 <= j < |r.visits| ==> r.visits[j].result.None?) ==> r.fields.Connection == f.Connection)
            && ((exists j :: 0 <= j < |r.visits| && r.visits[j].result.Some?) ==>
                  exists j :: && 0 <= j < |r.visits| && r.visits[j].result.Some?
                              && r.fields.Connection == r.visits[j].connection
                              && forall k :: j < k < |r.visits| ==> r.visits[k].result.None?)
            && ((exists j :: 0 <= j < |r.visits| && ReportedConnected(r.visits[j])) ==> r.fields.Connection == Connected)
  {
    var scan := Scan(locations, store, f.UpdateCounter + 1, 0, utcNow, simulateConnection, probe);
    ScanVerdict(locations, store, f.UpdateCounter + 1, 0, utcNow, simulateConnection, probe);
    ScanConnectedIff(locations, store, f.UpdateCounter + 1, utcNow, simulateConnection, probe);
    LastReportedIsLast(scan.visits);
  }

  /** `ConnectionChanged` is stamped exactly when the verdict changes. */
  lemma GroupConnectionChanged(peerGroup: PeerGroup, f: GroupFields, locations: seq<LocationState>, store: Store,
                               utcNow: Time, simulateConnection: Option<ConnectionState>, probe: Probe)
    requires Covers(locations, store)
    ensures var r := GroupUpdate(peerGroup, f, locations, store, utcNow, simulateConnection, probe);
            && (r.fields.Connection != f.Connection ==> r.fields.ConnectionChanged == Some(utcNow))
            && (r.fields.Connection == f.Connection ==> r.fields.ConnectionChanged == f.ConnectionChanged)
  {
  }

  /**
   * The hysteresis rule: Connected or Unavailable clears the flag at once; the
   * flag rises only on Disconnected once `Fail` has passed since the last
   * change (or no change was ever stamped), and then always does; a failed
   * group stays failed while Disconnected; `IsFailedChanged` is stamped exactly
   * on a flip.
   */
  lemma GroupHysteresis(peerGroup: PeerGroup, f: GroupFields, locations: seq<LocationState>, store: Store,
                        utcNow: Time, simulateConnection: Option<ConnectionState>, probe: Probe)
    requires Covers(locations, store) && CanPoll(peerGroup, utcNow, f.LastUpdated)
    ensures var r := GroupUpdate(peerGroup, f, locations, store, utcNow, simulateConnection, probe).fields;
            var elapsed := r.ConnectionChanged.None? || utcNow >= r.ConnectionChanged.value + peerGroup.Fail;
            && (r.Connection == Connected || r.Connection == Unavailable ==> !r.IsFailed)
            && (!f.IsFailed && r.IsFailed ==> r.Connection == Disconnected && elapsed)
            && (!f.IsFailed && r.Connection == Disconnected && elapsed ==> r.IsFailed)
            && (f.IsFailed && r.Connection == Disconnected ==> r.IsFailed)
            && (r.IsFailed != f.IsFailed ==> r.IsFailedChanged == Some(utcNow))
            && (r.IsFailed == f.IsFailed ==> r.IsFailedChanged == f.IsFailedChanged)
  {
  }

  /**
   * What every reachable group state satisfies: a verdict other than the
   * initial Unavailable has a stamped change, and a failed group is
   * Disconnected and flipped at least `fail` after its last change.
   */
  predicate GroupInvariant(f: GroupFields, fail: Duration)
  {
    && (f.Connection != Unavailable ==> f.ConnectionChanged.Some?)
    && (f.IsFailed ==> && f.Connection == Disconnected
                       && f.ConnectionChanged.Some? && f.IsFailedChanged.Some?
                       && f.IsFailedChanged.value >= f.ConnectionChanged.value + fail)
  }

  lemma InitialGroupInvariant(fail: Duration)
    ensures GroupInvariant(InitialGroupFields, fail)
  {
  }

  lemma GroupUpdatePreservesInvariant(peerGroup: PeerGroup, f: GroupFields, locations: seq<LocationState>, store: Store,
                                      utcNow: Time, simulateConnection: Option<ConnectionState>, probe: Probe)
    requires Covers(locations, store) && GroupInvariant(f, peerGroup.Fail)
    ensures GroupInvariant(GroupUpdate(peerGroup, f, locations, store, utcNow, simulateConnection, probe).fields, peerGroup.Fail)
  {
  }

  /**
   * A group whose locations (without repeats) are all due, one of which the
   * probe finds up, ends a polled update Connected and not failed.
   */
  lemma GroupConnectedWhenOneReplies(peerGroup: PeerGroup, f: GroupFields, locations: seq<LocationState>, store: Store,
                                     utcNow: Time, probe: Probe, k: nat)
    requires Covers(locations, store) && Sequences.Distinct(locations) && k < |locations|
    requires CanPoll(peerGroup, utcNow, f.LastUpdated)
    requires forall l :: l in locations ==> CanPoll(l.Location.PeerGroup, utcNow, store[l].lastPolled)
    requires probe(locations[k].Location.Address, locations[k].Location.PeerGroup.Wait, utcNow).reply == Some(true)
    ensures var r := GroupUpdate(peerGroup, f, locations, store, utcNow, None, probe).fields;
            r.Connection == Connected && !r.IsFailed
  {
    ScanConnectedWhenOneReplies(locations, store, f.UpdateCounter + 1, utcNow, probe, k);
  }
}
