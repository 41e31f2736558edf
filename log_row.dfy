/**
 * One row of the failure log: when a group's failure started, how long it
 * lasted, when it ended, and the gap since the previous failure.
 */
module LogRows {

  import opened Wrappers
  import opened Basics
  import opened PeerGroupStates
  import opened PropertyChangeNotifiers

  /** The seven properties of a row; the name and comment are `null` and the times unset in a new row. */
  datatype LogValues = LogValues(
    PeerGroupName: Option<string>,
    FailStarted: Time,
    Length: Duration,
    FailEnded: Option<Time>,
    SincePrevious: Option<Duration>,
    Comment: Option<string>,
    IsActive: bool)

  const NewLogValues: LogValues := LogValues(None, MinTime, 0, None, None, None, false)

  /** The names of a row's properties, the only names its events carry. */
  const LogProperties: set<string> :=
    {"PeerGroupName", "FailStarted", "Length", "FailEnded", "SincePrevious", "Comment", "IsActive"}

  /**
   * `after` is `before` followed by events of a row's properties only, and by
   * none at all when nobody listens.
   */
  predicate Extends(before: seq<string>, after: seq<string>, subscribed: bool)
  {
    && |before| <= |after| && after[..|before|] == before
    && (forall i :: |before| <= i < |after| ==> after[i] in LogProperties)
    && (!subscribed ==> after == before)
  }

  /** One more assignment keeps `Extends`. */
  lemma ExtendsStep(before: seq<string>, mid: seq<string>, after: seq<string>, subscribed: bool, name: string)
    requires Extends(before, mid, subscribed) && name in LogProperties
    requires after == mid || (subscribed && after == mid + [name])
    ensures Extends(before, after, subscribed)
  {
    if after != mid {
      assert after[..|before|] == mid[..|before|];
    }
  }

  /**
   * The row after `Update` from the group snapshot `g`, where `previousFailEnded`
   * is the previous row's end (null without a previous row) and `truncate` drops
   * the fraction of a second. None when the first update meets a group whose
   * failure flag never flipped, where reading its time throws.
   */
  function Logged(v: LogValues, g: GroupRecord, previousFailEnded: Option<Time>, truncate: Duration -> Duration): Option<LogValues>
  {
    var started := Started(v.(PeerGroupName := Some(g.PeerGroup.Name)), g);
    if started.None? then None else Some(Finished(started.value, g, previousFailEnded, truncate))
  }

  /** The first update takes the start from the failure flag's flip and makes the row active. */
  function Started(v: LogValues, g: GroupRecord): Option<LogValues>
  {
    if v.FailStarted != MinTime then Some(v)
    else if g.fields.IsFailedChanged.None? then None
    else Some(v.(FailStarted := g.fields.IsFailedChanged.value, IsActive := true))
  }

  /** The length, and the end once the group is no longer failed. */
  function Ended(v: LogValues, g: GroupRecord, truncate: Duration -> Duration): LogValues
  {
    var measured := v.(Length := truncate(g.fields.LastUpdateRequest - v.FailStarted));
    if !g.fields.IsFailed then measured.(FailEnded := Some(g.fields.LastUpdated), IsActive := false) else measured
  }

  /** The rest of an update: the length, the end, and the gap since the previous row ended. */
  function Finished(v: LogValues, g: GroupRecord, previousFailEnded: Option<Time>, truncate: Duration -> Duration): LogValues
  {
    var ended := Ended(v, g, truncate);
    if previousFailEnded.Some? then ended.(SincePrevious := Some(truncate(ended.FailStarted - previousFailEnded.value))) else ended
  }

  /** The event one assignment raises: its property's name, when it is raised at all. */
  function Event(raise: bool, name: string): seq<string>
  {
    if raise then [name] else []
  }

  /** An assignment adds its event after the earlier ones. */
  lemma EmitEvent(raised: seq<string>, raise: bool, name: string)
    ensures Emit(raised, raise, name) == raised + Event(raise, name)
  {
    if !raise {
      assert raised + [] == raised;
    }
  }

  /**
   * The events an update raises, oldest first: each assignment raises its
   * property's name when it changes the value and someone listens. The name is
   * assigned first; an update that throws raises nothing more.
   */
  function LogEvents(subscribed: bool, v: LogValues, g: GroupRecord, previousFailEnded: Option<Time>,
                     truncate: Duration -> Duration): seq<string>
  {
    var named := v.(PeerGroupName := Some(g.PeerGroup.Name));
    var started := Started(named, g);
    Event(subscribed && v.PeerGroupName != named.PeerGroupName, "PeerGroupName")
    + if started.None? then []
      else StartEvents(subscribed, named, g)
           + EndEvents(subscribed, started.value, g, truncate)
           + GapEvents(subscribed, Ended(started.value, g, truncate), previousFailEnded, truncate)
  }

  /** The events of `Started`: the start, then the active flag, only while the start is unset. */
  function StartEvents(subscribed: bool, v: LogValues, g: GroupRecord): seq<string>
  {
    if v.FailStarted != MinTime || g.fields.IsFailedChanged.None? then []
    else Event(subscribed && v.FailStarted != g.fields.IsFailedChanged.value, "FailStarted")
         + Event(subscribed && !v.IsActive, "IsActive")
  }

  /** The events of `Ended`: the length, then the end and the active flag once the group is no longer failed. */
  function EndEvents(subscribed: bool, v: LogValues, g: GroupRecord, truncate: Duration -> Duration): seq<string>
  {
    Event(subscribed && v.Length != truncate(g.fields.LastUpdateRequest - v.FailStarted), "Length")
    + if g.fields.IsFailed then []
      else Event(subscribed && v.FailEnded != Some(g.fields.LastUpdated), "FailEnded")
           + Event(subscribed && v.IsActive, "IsActive")
  }

  /** The event of the gap, which is assigned only when the previous row has ended. */
  function GapEvents(subscribed: bool, v: LogValues, previousFailEnded: Option<Time>, truncate: Duration -> Duration): seq<string>
  {
    if previousFailEnded.None? then []
    else Event(subscribed && v.SincePrevious != Some(truncate(v.FailStarted - previousFailEnded.value)), "SincePrevious")
  }

  /** An update's events name row properties only, and are none without a listener. */
  lemma LogEventsExtends(raised: seq<string>, subscribed: bool, v: LogValues, g: GroupRecord,
                         previousFailEnded: Option<Time>, truncate: Duration -> Duration)
    ensures Extends(raised, raised + LogEvents(subscribed, v, g, previousFailEnded, truncate), subscribed)
  {
    var named := v.(PeerGroupName := Some(g.PeerGroup.Name));
    var started := Started(named, g);
    var n := Event(subscribed && v.PeerGroupName != named.PeerGroupName, "PeerGroupName");
    var rest := if started.None? then [] else
      StartEvents(subscribed, named, g)
      + EndEvents(subscribed, started.value, g, truncate)
      + GapEvents(subscribed, Ended(started.value, g, truncate), previousFailEnded, truncate);
    var e := LogEvents(subscribed, v, g, previousFailEnded, truncate);
    assert e == n + rest;
    assert forall x :: x in rest ==> x in LogProperties by {
      if started.Some? {
        PiecesWithin(subscribed, named, started.value, g, previousFailEnded, truncate);
      }
    }
    assert (raised + e)[..|raised|] == raised;
    forall i | |raised| <= i < |raised + e|
      ensures (raised + e)[i] in LogProperties
    {
      assert (raised + e)[i] == e[i - |raised|];
    }
    if !subscribed {
      if started.Some? {
        PiecesWithin(subscribed, named, started.value, g, previousFailEnded, truncate);
      }
      assert e == [];
    }
  }

  /** The pieces of an update's events name row properties only, and are empty without a listener. */
  lemma PiecesWithin(subscribed: bool, v: LogValues, w: LogValues, g: GroupRecord, previousFailEnded: Option<Time>,
                     truncate: Duration -> Duration)
    ensures var all := StartEvents(subscribed, v, g) + EndEvents(subscribed, w, g, truncate)
                       + GapEvents(subscribed, Ended(w, g, truncate), previousFailEnded, truncate);
            && (forall x :: x in all ==> x in LogProperties)
            && (!subscribed ==> all == [])
  {
  }

  /** The names `StartEvents` raises with a listener, and when. */
  lemma StartEventsNames(v: LogValues, g: GroupRecord)
    requires Started(v, g).Some?
    ensures "PeerGroupName" !in StartEvents(true, v, g) && "Length" !in StartEvents(true, v, g)
    ensures "FailEnded" !in StartEvents(true, v, g) && "SincePrevious" !in StartEvents(true, v, g)
    ensures "Comment" !in StartEvents(true, v, g)
    ensures "FailStarted" in StartEvents(true, v, g) <==> Started(v, g).value.FailStarted != v.FailStarted
    ensures "IsActive" in StartEvents(true, v, g) <==> Started(v, g).value.IsActive != v.IsActive
  {
  }

  /** The names `EndEvents` raises with a listener, and when. */
  lemma EndEventsNames(v: LogValues, g: GroupRecord, truncate: Duration -> Duration)
    ensures "PeerGroupName" !in EndEvents(true, v, g, truncate) && "FailStarted" !in EndEvents(true, v, g, truncate)
    ensures "SincePrevious" !in EndEvents(true, v, g, truncate) && "Comment" !in EndEvents(true, v, g, truncate)
    ensures "Length" in EndEvents(true, v, g, truncate) <==> v.Length != Ended(v, g, truncate).Length
    ensures "FailEnded" in EndEvents(true, v, g, truncate) <==> v.FailEnded != Ended(v, g, truncate).FailEnded
    ensures "IsActive" in EndEvents(true, v, g, truncate) <==> !g.fields.IsFailed && v.IsActive
  {
  }

  /** The name `GapEvents` raises with a listener, and when. */
  lemma GapEventsNames(v: LogValues, previousFailEnded: Option<Time>, truncate: Duration -> Duration)
    ensures "PeerGroupName" !in GapEvents(true, v, previousFailEnded, truncate)
    ensures "FailStarted" !in GapEvents(true, v, previousFailEnded, truncate)
    ensures "Length" !in GapEvents(true, v, previousFailEnded, truncate)
    ensures "FailEnded" !in GapEvents(true, v, previousFailEnded, truncate)
    ensures "Comment" !in GapEvents(true, v, previousFailEnded, truncate)
    ensures "IsActive" !in GapEvents(true, v, previousFailEnded, truncate)
    ensures "SincePrevious" in GapEvents(true, v, previousFailEnded, truncate)
            <==> previousFailEnded.Some? && v.SincePrevious != Some(truncate(v.FailStarted - previousFailEnded.value))
  {
  }

  /**
   * With a listener, an update that succeeds raises the name and the start
   * exactly when it changes them, the active flag at least whenever it
   * changes it, and never the comment.
   */
  lemma LogEventsReportStart(v: LogValues, g: GroupRecord, previousFailEnded: Option<Time>, truncate: Duration -> Duration)
    requires Logged(v, g, previousFailEnded, truncate).Some?
    ensures var e := LogEvents(true, v, g, previousFailEnded, truncate);
            var r := Logged(v, g, previousFailEnded, truncate).value;
            && ("PeerGroupName" in e <==> r.PeerGroupName != v.PeerGroupName)
            && ("FailStarted" in e <==> r.FailStarted != v.FailStarted)
            && (r.IsActive != v.IsActive ==> "IsActive" in e)
            && "Comment" !in e
  {
    var named := v.(PeerGroupName := Some(g.PeerGroup.Name));
    var w := Started(named, g).value;
    var ended := Ended(w, g, truncate);
    var n := Event(v.PeerGroupName != named.PeerGroupName, "PeerGroupName");
    var st, en, gap := StartEvents(true, named, g), EndEvents(true, w, g, truncate), GapEvents(true, ended, previousFailEnded, truncate);
    assert LogEvents(true, v, g, previousFailEnded, truncate) == n + (st + en + gap);
    StartEventsNames(named, g);
    EndEventsNames(w, g, truncate);
    GapEventsNames(ended, previousFailEnded, truncate);
    InPieces("PeerGroupName", n, st, en, gap);
    InPieces("FailStarted", n, st, en, gap);
    InPieces("IsActive", n, st, en, gap);
    InPieces("Comment", n, st, en, gap);
  }

  /**
   * With a listener, an update that succeeds raises the length, the end and
   * the gap exactly when it changes them.
   */
  lemma LogEventsReportEnd(v: LogValues, g: GroupRecord, previousFailEnded: Option<Time>, truncate: Duration -> Duration)
    requires Logged(v, g, previousFailEnded, truncate).Some?
    ensures var e := LogEvents(true, v, g, previousFailEnded, truncate);
            var r := Logged(v, g, previousFailEnded, truncate).value;
            && ("Length" in e <==> r.Length != v.Length)
            && ("FailEnded" in e <==> r.FailEnded != v.FailEnded)
            && ("SincePrevious" in e <==> r.SincePrevious != v.SincePrevious)
  {
    var named := v.(PeerGroupName := Some(g.PeerGroup.Name));
    var w := Started(named, g).value;
    var ended := Ended(w, g, truncate);
    var n := Event(v.PeerGroupName != named.PeerGroupName, "PeerGroupName");
    var st, en, gap := StartEvents(true, named, g), EndEvents(true, w, g, truncate), GapEvents(true, ended, previousFailEnded, truncate);
    assert LogEvents(true, v, g, previousFailEnded, truncate) == n + (st + en + gap);
    StartEventsNames(named, g);
    EndEventsNames(w, g, truncate);
    GapEventsNames(ended, previousFailEnded, truncate);
    InPieces("Length", n, st, en, gap);
    InPieces("FailEnded", n, st, en, gap);
    InPieces("SincePrevious", n, st, en, gap);
  }

  lemma InPieces(x: string, n: seq<string>, st: seq<string>, en: seq<string>, gap: seq<string>)
    ensures x in n + (st + en + gap) <==> x in n || x in st || x in en || x in gap
  {
  }

  /** The regrouping of an update's events that `Update` needs. */
  lemma Regroup(raised: seq<string>, n: seq<string>, st: seq<string>, en: seq<string>, gap: seq<string>)
    ensures raised + n + st + (en + gap) == raised + (n + (st + en + gap))
    ensures raised + n + st == raised + (n + st)
  {
  }

  /**
   * What an update promises: the name is always the group's; the start is taken
   * from the failure flag's flip only while unset, which also makes the row
   * active; the length runs from the start to the group's last update request;
   * a group no longer failed ends the row at its last update; the gap changes
   * only when the previous row has ended; the comment is never touched.
   */
  lemma LoggedMeaning(v: LogValues, g: GroupRecord, previousFailEnded: Option<Time>, truncate: Duration -> Duration)
    ensures Logged(v, g, previousFailEnded, truncate).Some? <==> v.FailStarted != MinTime || g.fields.IsFailedChanged.Some?
    ensures var r := Logged(v, g, previousFailEnded, truncate);
            r.Some? ==>
              && r.value.PeerGroupName == Some(g.PeerGroup.Name)
              && r.value.FailStarted == (if v.FailStarted == MinTime then g.fields.IsFailedChanged.value else v.FailStarted)
              && r.value.Length == truncate(g.fields.LastUpdateRequest - r.value.FailStarted)
              && (!g.fields.IsFailed ==> r.value.FailEnded == Some(g.fields.LastUpdated) && !r.value.IsActive)
              && (g.fields.IsFailed ==> r.value.FailEnded == v.FailEnded && (r.value.IsActive <==> v.IsActive || v.FailStarted == MinTime))
              && (previousFailEnded.None? ==> r.value.SincePrevious == v.SincePrevious)
              && (previousFailEnded.Some? ==> r.value.SincePrevious == Some(truncate(r.value.FailStarted - previousFailEnded.value)))
              && r.value.Comment == v.Comment
  {
  }

  /** Once a row has started, later updates keep its start. */
  lemma LoggedKeepsStart(v: LogValues, g: GroupRecord, previousFailEnded: Option<Time>, truncate: Duration -> Duration)
    requires v.FailStarted != MinTime
    ensures Logged(v, g, previousFailEnded, truncate).Some?
    ensures Logged(v, g, previousFailEnded, truncate).value.FailStarted == v.FailStarted
  {
  }

  class LogRow {

    var peerGroupName: Option<string>
    var failStarted: Time
    var length: Duration
    var failEnded: Option<Time>
    var sincePrevious: Option<Duration>
    var comment: Option<string>
    var isActive: bool

    /** The notifier the row derives from: its handlers and the events it raised. */
    const Notifier: PropertyChangeNotifier

    function Values(): LogValues
      reads this
    {
      LogValues(peerGroupName, failStarted, length, failEnded, sincePrevious, comment, isActive)
    }

    constructor ()
      ensures Values() == NewLogValues && fresh(Notifier)
      ensures Notifier.Raised == [] && Notifier.Handlers == 0
    {
      peerGroupName := None;
      failStarted := MinTime;
      length := 0;
      failEnded := None;
      sincePrevious := None;
      comment := None;
      isActive := false;
      Notifier := new PropertyChangeNotifier();
    }

    // The property setters: each assigns through the notifier's `Update` under its own name.

    method SetPeerGroupName(value: Option<string>)
      modifies this, Notifier
      ensures Values() == old(Values()).(PeerGroupName := value)
      ensures Notifier.Raised == Emit(old(Notifier.Raised), old(Notifier.Handlers) > 0 && old(peerGroupName) != value, "PeerGroupName")
      ensures Notifier.Handlers == old(Notifier.Handlers)
    {
      peerGroupName := Notifier.Update(peerGroupName, value, "PeerGroupName");
    }

    method SetFailStarted(value: Time)
      modifies this, Notifier
      ensures Values() == old(Values()).(FailStarted := value)
      ensures Notifier.Raised == Emit(old(Notifier.Raised), old(Notifier.Handlers) > 0 && old(failStarted) != value, "FailStarted")
      ensures Notifier.Handlers == old(Notifier.Handlers)
    {
      failStarted := Notifier.Update(failStarted, value, "FailStarted");
    }

    method SetLength(value: Duration)
      modifies this, Notifier
      ensures Values() == old(Values()).(Length := value)
      ensures Notifier.Raised == Emit(old(Notifier.Raised), old(Notifier.Handlers) > 0 && old(length) != value, "Length")
      ensures Notifier.Handlers == old(Notifier.Handlers)
    {
      length := Notifier.Update(length, value, "Length");
    }

    method SetFailEnded(value: Option<Time>)
      modifies this, Notifier
      ensures Values() == old(Values()).(FailEnded := value)
      ensures Notifier.Raised == Emit(old(Notifier.Raised), old(Notifier.Handlers) > 0 && old(failEnded) != value, "FailEnded")
      ensures Notifier.Handlers == old(Notifier.Handlers)
    {
      failEnded := Notifier.Update(failEnded, value, "FailEnded");
    }

    method SetSincePrevious(value: Option<Duration>)
      modifies this, Notifier
      ensures Values() == old(Values()).(SincePrevious := value)
      ensures Notifier.Raised == Emit(old(Notifier.Raised), old(Notifier.Handlers) > 0 && old(sincePrevious) != value, "SincePrevious")
      ensures Notifier.Handlers == old(Notifier.Handlers)
    {
      sincePrevious := Notifier.Update(sincePrevious, value, "SincePrevious");
    }

    method SetComment(value: Option<string>)
      modifies this, Notifier
      ensures Values() == old(Values()).(Comment := value)
      ensures Notifier.Raised == Emit(old(Notifier.Raised), old(Notifier.Handlers) > 0 && old(comment) != value, "Comment")
      ensures Notifier.Handlers == old(Notifier.Handlers)
    {
      comment := Notifier.Update(comment, value, "Comment");
    }

    method SetIsActive(value: bool)
      modifies this, Notifier
      ensures Values() == old(Values()).(IsActive := value)
      ensures Notifier.Raised == Emit(old(Notifier.Raised), old(Notifier.Handlers) > 0 && old(isActive) != value, "IsActive")
      ensures Notifier.Handlers == old(Notifier.Handlers)
    {
      isActive := Notifier.Update(isActive, value, "IsActive");
    }

    /**
     * Records the group snapshot `g` in the row; `previous` is the row before
     * it, if any, and may be this row itself. `ok` is false where the source
     * throws, after the name has been assigned.
     */
    method Update(g: GroupRecord, previous: Option<LogRow>, truncate: Duration -> Duration) returns (ok: bool)
      modifies this, Notifier
      ensures var r := Logged(old(Values()), g, if previous.Some? then previous.value.failEnded else None, truncate);
              && (ok <==> r.Some?)
              && (ok ==> Values() == r.value)
              && (!ok ==> Values() == old(Values()).(PeerGroupName := Some(g.PeerGroup.Name)))
      ensures Notifier.Handlers == old(Notifier.Handlers)
      ensures Extends(old(Notifier.Raised), Notifier.Raised, old(Notifier.Handlers) > 0)
      ensures Notifier.Raised == old(Notifier.Raised)
              + LogEvents(old(Notifier.Handlers) > 0, old(Values()), g, if previous.Some? then previous.value.failEnded else None, truncate)
    {
      ghost var raised, subscribed, v := Notifier.Raised, Notifier.Handlers > 0, Values();
      SetPeerGroupName(Some(g.PeerGroup.Name));
      ExtendsStep(raised, raised, Notifier.Raised, subscribed, "PeerGroupName");
      EmitEvent(raised, subscribed && v.PeerGroupName != Some(g.PeerGroup.Name), "PeerGroupName");
      ghost var named := Values();
      assert named == v.(PeerGroupName := Some(g.PeerGroup.Name));
      ghost var n := Event(subscribed && v.PeerGroupName != named.PeerGroupName, "PeerGroupName");
      ghost var st := StartEvents(subscribed, named, g);
      ok := Start(g, raised);
      if ok {
        ghost var started := Values();
        Finish(g, previous, truncate, raised);
        // `previous` may be this row, so its end is read after `Finish`.
        ghost var previousFailEnded := if previous.Some? then previous.value.failEnded else None;
        ghost var en, gap := EndEvents(subscribed, started, g, truncate), GapEvents(subscribed, Ended(started, g, truncate), previousFailEnded, truncate);
        Regroup(raised, n, st, en, gap);
        assert LogEvents(subscribed, v, g, previousFailEnded, truncate) == n + (st + en + gap);
      } else {
        Regroup(raised, n, st, [], []);
        assert LogEvents(subscribed, v, g, if previous.Some? then previous.value.failEnded else None, truncate) == n + st;
      }
    }

    /** The part of `Update` that starts the row; false where reading an unset flip time throws. */
    method Start(g: GroupRecord, ghost raised: seq<string>) returns (ok: bool)
      requires Extends(raised, Notifier.Raised, Notifier.Handlers > 0)
      modifies this, Notifier
      ensures ok <==> Started(old(Values()), g).Some?
      ensures ok ==> Values() == Started(old(Values()), g).value
      ensures !ok ==> Values() == old(Values())
      ensures Notifier.Handlers == old(Notifier.Handlers)
      ensures Extends(raised, Notifier.Raised, Notifier.Handlers > 0)
      ensures Notifier.Raised == old(Notifier.Raised) + StartEvents(old(Notifier.Handlers) > 0, old(Values()), g)
    {
      ghost var subscribed, v, before := Notifier.Handlers > 0, Values(), Notifier.Raised;
      if failStarted == MinTime {
        if g.fields.IsFailedChanged.None? {
          assert before + [] == before;
          return false;
        }
        ghost var mid := Notifier.Raised;
        SetFailStarted(g.fields.IsFailedChanged.value);
        ExtendsStep(raised, mid, Notifier.Raised, subscribed, "FailStarted");
        EmitEvent(mid, subscribed && v.FailStarted != g.fields.IsFailedChanged.value, "FailStarted");
        mid := Notifier.Raised;
        SetIsActive(true);
        ExtendsStep(raised, mid, Notifier.Raised, subscribed, "IsActive");
        EmitEvent(mid, subscribed && !v.IsActive, "IsActive");
        assert Notifier.Raised == before + StartEvents(subscribed, v, g);
      } else {
        assert before + [] == before;
      }
      ok := true;
    }

    /** The part of `Update` after the row has started. */
    method Finish(g: GroupRecord, previous: Option<LogRow>, truncate: Duration -> Duration, ghost raised: seq<string>)
      requires Extends(raised, Notifier.Raised, Notifier.Handlers > 0)
      modifies this, Notifier
      ensures Values() == Finished(old(Values()), g, if previous.Some? then previous.value.failEnded else None, truncate)
      ensures Notifier.Handlers == old(Notifier.Handlers)
      ensures Extends(raised, Notifier.Raised, Notifier.Handlers > 0)
      ensures Notifier.Raised == old(Notifier.Raised)
              + (EndEvents(old(Notifier.Handlers) > 0, old(Values()), g, truncate)
                 + GapEvents(old(Notifier.Handlers) > 0, Ended(old(Values()), g, truncate), if previous.Some? then previous.value.failEnded else None, truncate))
    {
      End(g, truncate, raised);
      Gap(previous, truncate, raised);
    }

    /** The length, then the end of a failure that is over. */
    method End(g: GroupRecord, truncate: Duration -> Duration, ghost raised: seq<string>)
      requires Extends(raised, Notifier.Raised, Notifier.Handlers > 0)
      modifies this, Notifier
      ensures Values() == Ended(old(Values()), g, truncate)
      ensures Notifier.Handlers == old(Notifier.Handlers)
      ensures Extends(raised, Notifier.Raised, Notifier.Handlers > 0)
      ensures Notifier.Raised == old(Notifier.Raised) + EndEvents(old(Notifier.Handlers) > 0, old(Values()), g, truncate)
    {
      ghost var subscribed, v, before := Notifier.Handlers > 0, Values(), Notifier.Raised;
      ghost var mid := Notifier.Raised;
      SetLength(truncate(g.fields.LastUpdateRequest - failStarted));
      ExtendsStep(raised, mid, Notifier.Raised, subscribed, "Length");
      ghost var length := Event(subscribed && v.Length != truncate(g.fields.LastUpdateRequest - v.FailStarted), "Length");
      EmitEvent(mid, subscribed && v.Length != truncate(g.fields.LastUpdateRequest - v.FailStarted), "Length");
      if !g.fields.IsFailed {
        mid := Notifier.Raised;
        SetFailEnded(Some(g.fields.LastUpdated));
        ExtendsStep(raised, mid, Notifier.Raised, subscribed, "FailEnded");
        ghost var ended := Event(subscribed && v.FailEnded != Some(g.fields.LastUpdated), "FailEnded");
        EmitEvent(mid, subscribed && v.FailEnded != Some(g.fields.LastUpdated), "FailEnded");
        mid := Notifier.Raised;
        SetIsActive(false);
        ExtendsStep(raised, mid, Notifier.Raised, subscribed, "IsActive");
        EmitEvent(mid, subscribed && v.IsActive, "IsActive");
        assert Notifier.Raised == before + (length + (ended + Event(subscribed && v.IsActive, "IsActive")));
      } else {
        assert Notifier.Raised == before + (length + []);
      }
    }

    /** The gap since the previous row ended, when it has; `previous` may be this row. */
    method Gap(previous: Option<LogRow>, truncate: Duration -> Duration, ghost raised: seq<string>)
      requires Extends(raised, Notifier.Raised, Notifier.Handlers > 0)
      modifies this, Notifier
      ensures previous.Some? ==> previous.value.failEnded == old(previous.value.failEnded)
      ensures Values() == if previous.Some? && previous.value.failEnded.Some?
                          then old(Values()).(SincePrevious := Some(truncate(old(failStarted) - previous.value.failEnded.value)))
                          else old(Values())
      ensures Notifier.Handlers == old(Notifier.Handlers)
      ensures Extends(raised, Notifier.Raised, Notifier.Handlers > 0)
      ensures Notifier.Raised == old(Notifier.Raised)
              + GapEvents(old(Notifier.Handlers) > 0, old(Values()), if previous.Some? then previous.value.failEnded else None, truncate)
    {
      ghost var v, before := Values(), Notifier.Raised;
      if previous.Some? && previous.value.failEnded.Some? {
        ghost var mid := Notifier.Raised;
        SetSincePrevious(Some(truncate(failStarted - previous.value.failEnded.value)));
        ExtendsStep(raised, mid, Notifier.Raised, Notifier.Handlers > 0, "SincePrevious");
        EmitEvent(mid, Notifier.Handlers > 0 && v.SincePrevious != Some(truncate(v.FailStarted - previous.value.failEnded.value)), "SincePrevious");
      } else {
        assert before + [] == before;
      }
    }
  }
}
