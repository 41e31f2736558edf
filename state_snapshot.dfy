/**
 * A snapshot of the monitored states: each group state with its location
 * states, taken at one moment (`Created`).
 */
module StateSnapshots {

  import opened Wrappers
  import opened Basics
  import opened LocationStates
  import opened PeerGroupStates

  /** One key/value pair of the snapshot's dictionary. */
  datatype Entry = Entry(group: PeerGroupState, locations: seq<LocationState>)

  /** The keys of `entries`, in order. */
  function Keys(entries: seq<Entry>): (r: seq<PeerGroupState>)
    ensures |r| == |entries|
    ensures forall i :: 0 <= i < |entries| ==> r[i] == entries[i].group
  {
    if entries == [] then [] else [entries[0].group] + Keys(entries[1..])
  }

  /** The groups of `groups`, in order, whose failure flag flipped at `created`. */
  function FailedChanged(groups: seq<PeerGroupState>, created: Time): (r: seq<PeerGroupState>)
    reads groups
    ensures |r| <= |groups|
  {
    if groups == [] then []
    else (if groups[0].IsFailedChanged == Some(created) then [groups[0]] else []) + FailedChanged(groups[1..], created)
  }

  /**
   * `FailedChanged` keeps exactly the groups stamped at `created`: each group it
   * returns is one of `groups` and is stamped, and each stamped group of
   * `groups` is returned.
   */
  lemma {:induction false} FailedChangedMembers(groups: seq<PeerGroupState>, created: Time)
    ensures forall k :: 0 <= k < |FailedChanged(groups, created)| ==>
              FailedChanged(groups, created)[k] in groups && FailedChanged(groups, created)[k].IsFailedChanged == Some(created)
    ensures forall k :: 0 <= k < |groups| && groups[k].IsFailedChanged == Some(created) ==> groups[k] in FailedChanged(groups, created)
  {
    if groups != [] {
      FailedChangedMembers(groups[1..], created);
      var head := if groups[0].IsFailedChanged == Some(created) then [groups[0]] else [];
      var tail := FailedChanged(groups[1..], created);
      assert FailedChanged(groups, created) == head + tail;
      forall k | 0 <= k < |head + tail|
        ensures (head + tail)[k] in groups
      {
        if k >= |head| {
          assert (head + tail)[k] == tail[k - |head|];
        }
      }
      forall k | 0 <= k < |groups| && groups[k].IsFailedChanged == Some(created)
        ensures groups[k] in head + tail
      {
        if k > 0 {
          assert groups[k] == groups[1..][k - 1];
        }
      }
    }
  }

  /** `FailedChanged` keeps the order of its input: it is the input with the others left out. */
  lemma {:induction false} FailedChangedOrder(groups: seq<PeerGroupState>, created: Time, i: nat, j: nat)
    requires i < j < |FailedChanged(groups, created)|
    ensures exists a, b :: 0 <= a < b < |groups| && groups[a] == FailedChanged(groups, created)[i]
                                                 && groups[b] == FailedChanged(groups, created)[j]
  {
    var r := FailedChanged(groups, created);
    var head := if groups[0].IsFailedChanged == Some(created) then [groups[0]] else [];
    var tail := FailedChanged(groups[1..], created);
    assert r == head + tail;
    if head == [] {
      FailedChangedOrder(groups[1..], created, i, j);
      var a, b :| 0 <= a < b < |groups[1..]| && groups[1..][a] == tail[i] && groups[1..][b] == tail[j];
      assert groups[a + 1] == r[i] && groups[b + 1] == r[j];
    } else if i == 0 {
      FailedChangedMembers(groups[1..], created);
      assert r[j] == tail[j - 1] && tail[j - 1] in groups[1..];
      var b :| 0 <= b < |groups[1..]| && groups[1..][b] == r[j];
      assert groups[0] == r[0] && groups[b + 1] == r[j];
    } else {
      FailedChangedOrder(groups[1..], created, i - 1, j - 1);
      var a, b :| 0 <= a < b < |groups[1..]| && groups[1..][a] == tail[i - 1] && groups[1..][b] == tail[j - 1];
      assert groups[a + 1] == r[i] && groups[b + 1] == r[j];
    }
  }

  class StateSnapshot {

    /** When the snapshot was taken; get-only, so it never changes. */
    const Created: Time

    /** The dictionary, as its pairs in insertion order (the order it enumerates them in). */
    var states: seq<Entry>

    /** A dictionary holds each key once. */
    predicate Valid()
      reads this
    {
      forall i, j :: 0 <= i < j < |states| ==> states[i].group != states[j].group
    }

    /**
     * `capacity` sizes the dictionary's storage; a negative one throws, so it
     * must not be negative, and otherwise it has no observable effect.
     */
    constructor (created: Time, capacity: int)
      requires capacity >= 0
      ensures Created == created && states == [] && Valid()
    {
      Created := created;
      states := [];
    }

    function AllPeerGroups(): (r: seq<PeerGroupState>)
      reads this
      ensures |r| == |states|
    {
      Keys(states)
    }

    function FailedChangedPeerGroups(): (r: seq<PeerGroupState>)
      reads this, set e | e in states :: e.group
    {
      assert forall g :: g in Keys(states) ==> g in set e | e in states :: e.group;
      FailedChanged(Keys(states), Created)
    }

    /**
     * `Dictionary.Add`: a group already present makes it throw and leaves the
     * snapshot as it was (`ok` false); a new one is added with its locations.
     */
    method Add(snapshotPeerGroup: PeerGroupState, snapshotLocations: seq<LocationState>) returns (ok: bool)
      requires Valid()
      modifies this
      ensures Valid()
      ensures ok <==> snapshotPeerGroup !in old(AllPeerGroups())
      ensures ok ==> states == old(states) + [Entry(snapshotPeerGroup, snapshotLocations)]
      ensures !ok ==> states == old(states)
    {
      if snapshotPeerGroup in Keys(states) {
        return false;
      }
      states := states + [Entry(snapshotPeerGroup, snapshotLocations)];
      ok := true;
    }
  }

  /**
   * The failed-changed groups are among `AllPeerGroups` and stamped at
   * `Created`, and every key stamped at `Created` is one of them.
   */
  lemma FailedChangedAreKeys(s: StateSnapshot)
    ensures forall k :: 0 <= k < |s.FailedChangedPeerGroups()| ==>
              s.FailedChangedPeerGroups()[k] in s.AllPeerGroups() && s.FailedChangedPeerGroups()[k].IsFailedChanged == Some(s.Created)
    ensures forall k :: 0 <= k < |s.states| && s.states[k].group.IsFailedChanged == Some(s.Created) ==>
              s.states[k].group in s.FailedChangedPeerGroups()
  {
    FailedChangedMembers(s.AllPeerGroups(), s.Created);
    assert forall k :: 0 <= k < |s.states| ==> s.AllPeerGroups()[k] == s.states[k].group;
  }
}
