/**
 * The peer-group editing dialog: a grid of rows, one per group, each holding
 * the group's name and its timings as whole seconds or milliseconds, and the
 * merge of the edited rows back into the profile's groups.
 */
module PeerGroupDialogs {

  import opened Wrappers
  import opened Basics
  import opened PeerGroups
  import opened Sequences

  /** An unsigned 16-bit integer. */
  newtype ushort = x: int | 0 <= x < 0x1_0000

  /** The unchecked conversion of an integer to `ushort`: it keeps the low 16 bits. */
  function ToUShort(x: int): (r: ushort)
    ensures 0 <= x < 0x1_0000 ==> r as int == x
    ensures (r as int - x) % 0x1_0000 == 0
  {
    (x % 0x1_0000) as ushort
  }

  /** Whole seconds in `ms` milliseconds, truncated toward zero as a cast of `TotalSeconds` does. */
  function TruncatedSeconds(ms: int): (r: int)
    ensures ms >= 0 ==> 0 <= r * 1000 <= ms < r * 1000 + 1000
    ensures ms < 0 ==> r * 1000 - 1000 < ms <= r * 1000 <= 0
  {
    if ms >= 0 then ms / 1000 else -((-ms) / 1000)
  }

  const DefaultPollSeconds: ushort := 5
  const DefaultWaitMilliseconds: ushort := 200
  const DefaultFailSeconds: ushort := 10

  const MaxPoll: ushort := 60 * 60
  const MaxWait: ushort := 10 * DefaultWaitMilliseconds
  const MaxFail: ushort := 10 * MaxPoll

  /** `value` brought into `[min, max]`. */
  function Clamp(value: ushort, min: ushort, max: ushort): (r: ushort)
    ensures min <= max ==> min <= r <= max
    ensures min <= value <= max ==> r == value
    ensures value < min ==> r == min
    ensures min <= max < value ==> r == max
  {
    if value < min then min else if value > max then max else value
  }

  /** Clamping twice is clamping once. */
  lemma ClampIdempotent(value: ushort, min: ushort, max: ushort)
    requires min <= max
    ensures Clamp(Clamp(value, min, max), min, max) == Clamp(value, min, max)
  {
  }

  // Trimming, as `string.Trim()`: the characters `char.IsWhiteSpace` accepts.

  predicate IsWhiteSpace(c: char)
  {
    || ('\U{0009}' <= c <= '\U{000D}') || c == ' ' || c == '\U{0085}' || c == '\U{00A0}' || c == '\U{1680}'
    || ('\U{2000}' <= c <= '\U{200A}') || c == '\U{2028}' || c == '\U{2029}' || c == '\U{202F}'
    || c == '\U{205F}' || c == '\U{3000}'
  }

  function TrimStart(s: string): string
  {
    if s != [] && IsWhiteSpace(s[0]) then TrimStart(s[1..]) else s
  }

  function TrimEnd(s: string): string
  {
    if s != [] && IsWhiteSpace(s[|s| - 1]) then TrimEnd(s[..|s| - 1]) else s
  }

  function Trim(s: string): string
  {
    TrimEnd(TrimStart(s))
  }

  /** `TrimStart` drops exactly the leading white space. */
  lemma {:induction false} TrimStartSlice(s: string) returns (i: nat)
    ensures i <= |s| && TrimStart(s) == s[i..]
    ensures forall k :: 0 <= k < i ==> IsWhiteSpace(s[k])
    ensures i < |s| ==> !IsWhiteSpace(s[i])
  {
    if s != [] && IsWhiteSpace(s[0]) {
      var j := TrimStartSlice(s[1..]);
      i := j + 1;
      assert s[1..][j..] == s[i..];
      forall k | 0 <= k < i
        ensures IsWhiteSpace(s[k])
      {
        if k > 0 {
          assert s[k] == s[1..][k - 1];
        }
      }
    } else {
      i := 0;
    }
  }

  /** `TrimEnd` drops exactly the trailing white space. */
  lemma {:induction false} TrimEndSlice(s: string) returns (j: nat)
    ensures j <= |s| && TrimEnd(s) == s[..j]
    ensures forall k :: j <= k < |s| ==> IsWhiteSpace(s[k])
    ensures j > 0 ==> !IsWhiteSpace(s[j - 1])
  {
    if s != [] && IsWhiteSpace(s[|s| - 1]) {
      var front := s[..|s| - 1];
      j := TrimEndSlice(front);
      assert front[..j] == s[..j];
      forall k | j <= k < |s|
        ensures IsWhiteSpace(s[k])
      {
        if k < |s| - 1 {
          assert s[k] == front[k];
        }
      }
    } else {
      j := |s|;
    }
  }

  /**
   * `Trim` keeps a middle slice of `s`, dropping only white space around it,
   * and what it keeps neither starts nor ends with white space.
   */
  lemma TrimMeaning(s: string)
    ensures exists i, j :: 0 <= i <= j <= |s| && Trim(s) == s[i..j]
                           && (forall k :: 0 <= k < i ==> IsWhiteSpace(s[k]))
                           && (forall k :: j <= k < |s| ==> IsWhiteSpace(s[k]))
    ensures Trim(s) != [] ==> !IsWhiteSpace(Trim(s)[0]) && !IsWhiteSpace(Trim(s)[|Trim(s)| - 1])
  {
    var i := TrimStartSlice(s);
    var t := s[i..];
    var j := TrimEndSlice(t);
    assert Trim(s) == s[i..i + j];
    assert forall k :: i + j <= k < |s| ==> s[k] == t[k - i];
  }

  /** A string trims to nothing exactly when it is all white space. */
  lemma TrimEmptyIffBlank(s: string)
    ensures Trim(s) == [] <==> forall k :: 0 <= k < |s| ==> IsWhiteSpace(s[k])
  {
    var i := TrimStartSlice(s);
    var t := s[i..];
    var j := TrimEndSlice(t);
    if Trim(s) == [] {
      assert i == |s|;
    } else {
      assert !IsWhiteSpace(s[i]);
    }
  }

  /** Trimming twice is trimming once. */
  lemma TrimIdempotent(s: string)
    ensures Trim(Trim(s)) == Trim(s)
  {
    TrimMeaning(s);
    var t := Trim(s);
    assert TrimStart(t) == t;
    assert TrimEnd(t) == t;
  }

  // The grid rows.

  /** A row's values: the name (null in a new row), Poll and Fail in seconds, Wait in milliseconds, and the group id. */
  datatype GridValues = GridValues(Name: Option<string>, Poll: ushort, Wait: ushort, Fail: ushort, Id: Guid)

  /** A new grid row, made for the grid's insert row, with the default timings and a new id. */
  function DefaultRow(freshId: Guid): GridValues
  {
    GridValues(None, DefaultPollSeconds, DefaultWaitMilliseconds, DefaultFailSeconds, freshId)
  }

  /** The row that shows `group`: its timings cut to whole units, kept as 16 bits. */
  function RowOf(group: PeerGroup): GridValues
  {
    GridValues(Some(group.Name), ToUShort(TruncatedSeconds(group.Poll)), ToUShort(group.Wait),
               ToUShort(TruncatedSeconds(group.Fail)), group.Id)
  }

  /**
   * `CreateGroup`: the group a row stands for, with its own id; None when the
   * row has no name, where the group's constructor throws.
   */
  function GroupOf(row: GridValues): (r: Option<PeerGroup>)
    ensures r.Some? <==> !IsNullOrEmpty(row.Name)
  {
    if IsNullOrEmpty(row.Name) then None
    else Some(NewPeerGroup(row.Name.value, row.Fail as int * 1000, row.Poll as int * 1000, row.Wait as int, Some(row.Id), row.Id))
  }

  /**
   * `CreateGroup` as written: the row's Poll, Wait and Fail are passed where the
   * group's constructor takes Fail, Poll and Wait.
   */
  function GroupOfAsWritten(row: GridValues): (r: Option<PeerGroup>)
    ensures r.Some? <==> !IsNullOrEmpty(row.Name)
  {
    if IsNullOrEmpty(row.Name) then None
    else Some(NewPeerGroup(row.Name.value, row.Poll as int * 1000, row.Wait as int, row.Fail as int * 1000, Some(row.Id), row.Id))
  }

  lemma WholeSeconds(n: ushort)
    ensures TruncatedSeconds(n as int * 1000) == n as int
  {
    assert (n as int * 1000) / 1000 == n as int;
  }

  /** A named row turned into a group and shown again is the same row. */
  lemma RowGroupRoundTrip(row: GridValues)
    requires !IsNullOrEmpty(row.Name)
    ensures RowOf(GroupOf(row).value) == row
  {
    WholeSeconds(row.Poll);
    WholeSeconds(row.Fail);
  }

  /**
   * A group whose Poll and Fail are whole seconds and whose timings fit the
   * row's 16 bits, shown as a row and turned back, is the same group.
   */
  lemma GroupRowRoundTrip(group: PeerGroup)
    requires group.Name != ""
    requires group.Poll % 1000 == 0 && 0 <= group.Poll < 0x1_0000 * 1000
    requires group.Fail % 1000 == 0 && 0 <= group.Fail < 0x1_0000 * 1000
    requires 0 <= group.Wait < 0x1_0000
    ensures GroupOf(RowOf(group)) == Some(group)
  {
    assert TruncatedSeconds(group.Poll) * 1000 == group.Poll;
    assert TruncatedSeconds(group.Fail) * 1000 == group.Fail;
  }

  /** A new row, once named, stands for a group with the profile's default timings. */
  lemma DefaultRowGroup(name: string, freshId: Guid)
    requires name != ""
    ensures GroupOf(DefaultRow(freshId).(Name := Some(name)))
            == Some(NewPeerGroup(name, PeerGroups.DefaultFail, PeerGroups.DefaultPoll, PeerGroups.DefaultWait, Some(freshId), freshId))
  {
  }

  /** As written, a new row named "a" makes a group failing after 5 s, polling every 200 ms and waiting 10 s. */
  lemma GroupOfAsWrittenSwapsTimings(freshId: Guid)
    ensures GroupOfAsWritten(DefaultRow(freshId).(Name := Some("a"))).value.Fail == 5000
    ensures GroupOfAsWritten(DefaultRow(freshId).(Name := Some("a"))).value.Poll == 200
    ensures GroupOfAsWritten(DefaultRow(freshId).(Name := Some("a"))).value.Wait == 10000
    ensures RowOf(GroupOfAsWritten(DefaultRow(freshId).(Name := Some("a"))).value) != DefaultRow(freshId).(Name := Some("a"))
  {
    var row := DefaultRow(freshId).(Name := Some("a"));
    var g := GroupOfAsWritten(row).value;
    assert TruncatedSeconds(g.Poll) == 0;
  }

  class GridRow {

    var name: Option<string>
    var poll: ushort
    var wait: ushort
    var fail: ushort

    /** The id is get-only. */
    const Id: Guid

    function Values(): GridValues
      reads this
    {
      GridValues(name, poll, wait, fail, Id)
    }

    /** The row the grid creates by reflection; `freshId` stands for `Guid.NewGuid()`. */
    constructor (freshId: Guid)
      ensures Values() == DefaultRow(freshId)
    {
      name := None;
      poll := DefaultPollSeconds;
      wait := DefaultWaitMilliseconds;
      fail := DefaultFailSeconds;
      Id := freshId;
    }

    /** The row that shows an existing group. */
    constructor FromGroup(group: PeerGroup)
      ensures Values() == RowOf(group)
    {
      name := Some(group.Name);
      poll := ToUShort(TruncatedSeconds(group.Poll));
      wait := ToUShort(group.Wait);
      fail := ToUShort(TruncatedSeconds(group.Fail));
      Id := group.Id;
    }

    /**
     * The `Name` setter: stores the trimmed value; a null or blank value throws
     * (`ok` false) and leaves the name as it was.
     */
    method SetName(value: Option<string>) returns (ok: bool)
      modifies this
      ensures ok <==> value.Some? && Trim(value.value) != ""
      ensures ok ==> Values() == old(Values()).(Name := Some(Trim(value.value)))
      ensures !ok ==> Values() == old(Values())
    {
      var scrubbed := if value.Some? then Some(Trim(value.value)) else None;
      if IsNullOrEmpty(scrubbed) {
        return false;
      }
      name := scrubbed;
      ok := true;
    }

    /** The `Poll` setter: whole seconds, kept within 1 to 3600. */
    method SetPoll(value: ushort)
      modifies this
      ensures Values() == old(Values()).(Poll := Clamp(value, 1, MaxPoll))
      ensures 1 <= poll <= MaxPoll
    {
      poll := Clamp(value, 1, MaxPoll);
    }

    /** The `Wait` setter: milliseconds, kept within 1 to 2000. */
    method SetWait(value: ushort)
      modifies this
      ensures Values() == old(Values()).(Wait := Clamp(value, 1, MaxWait))
      ensures 1 <= wait <= MaxWait
    {
      wait := Clamp(value, 1, MaxWait);
    }

    /** The `Fail` setter: whole seconds, kept within 1 to 36000. */
    method SetFail(value: ushort)
      modifies this
      ensures Values() == old(Values()).(Fail := Clamp(value, 1, MaxFail))
      ensures 1 <= fail <= MaxFail
    {
      fail := Clamp(value, 1, MaxFail);
    }

    /**
     * `CreateGroup`: the group the row stands for, None when it has no name.
     * `asWritten` selects the call as it stands, which passes Poll, Wait and
     * Fail where the constructor takes Fail, Poll and Wait.
     */
    function CreateGroup(asWritten: bool): (r: Option<PeerGroup>)
      reads this
      ensures r.Some? <==> !IsNullOrEmpty(name)
      ensures r.Some? ==> r.value.Name == name.value && r.value.Id == Id
      ensures r.Some? && asWritten ==> r.value.Fail == poll as int * 1000 && r.value.Poll == wait as int && r.value.Wait == fail as int * 1000
      ensures r.Some? && !asWritten ==> r.value.Fail == fail as int * 1000 && r.value.Poll == poll as int * 1000 && r.value.Wait == wait as int
    {
      if asWritten then GroupOfAsWritten(Values()) else GroupOf(Values())
    }
  }

  // Merging the rows back into the profile's groups.

  /** The values of the rows, in order. */
  function RowsValues(rows: seq<GridRow>): (r: seq<GridValues>)
    reads rows
    ensures |r| == |rows| && forall k :: 0 <= k < |rows| ==> r[k] == rows[k].Values()
  {
    if rows == [] then [] else [rows[0].Values()] + RowsValues(rows[1..])
  }

  /** The index of the first group with `id`, as `FirstOrDefault(g => g.Id == id)` finds it. */
  function FindById(groups: seq<PeerGroup>, id: Guid): (r: Option<nat>)
    ensures r.Some? ==> r.value < |groups| && groups[r.value].Id == id
    ensures r.Some? ==> forall k :: 0 <= k < r.value ==> groups[k].Id != id
    ensures r.None? ==> forall k :: 0 <= k < |groups| ==> groups[k].Id != id
  {
    if groups == [] then None
    else if groups[0].Id == id then Some(0)
    else
      var rest := FindById(groups[1..], id);
      if rest.None? then None else Some(rest.value + 1)
  }

  /** Whether the row's group differs from the existing one in anything the grid edits. */
  predicate Differs(existing: PeerGroup, rowGroup: PeerGroup)
  {
    existing.Name != rowGroup.Name || existing.Poll != rowGroup.Poll
    || existing.Wait != rowGroup.Wait || existing.Fail != rowGroup.Fail
  }

  /**
   * The merge in progress: the groups so far, the groups kept (`usedGroups`),
   * and false once a row without a name has thrown.
   */
  datatype Merging = Merging(groups: seq<PeerGroup>, used: set<PeerGroup>, ok: bool)

  /**
   * One row of the merge: a row whose id matches no group is appended; one
   * whose group differs replaces the existing group at its index. Both are
   * kept. The corrected merge also keeps an existing group the row leaves
   * unchanged; `asWritten` selects the code as it stands, which does not,
   * and whose `CreateGroup` passes the timings out of order.
   */
  function MergeStep(m: Merging, row: GridValues, asWritten: bool): Merging
  {
    if !m.ok then m
    else
      var rowGroup := if asWritten then GroupOfAsWritten(row) else GroupOf(row);
      if rowGroup.None? then m.(ok := false)
      else
        var found := FindById(m.groups, row.Id);
        if found.None? then Merging(m.groups + [rowGroup.value], m.used + {rowGroup.value}, true)
        else if Differs(m.groups[found.value], rowGroup.value) then
          Merging(m.groups[found.value := rowGroup.value], m.used + {rowGroup.value}, true)
        else if asWritten then m
        else m.(used := m.used + {rowGroup.value})
  }

  /** The rows merged in order. */
  function MergeRows(m: Merging, rows: seq<GridValues>, asWritten: bool): Merging
  {
    if rows == [] then m else MergeStep(MergeRows(m, rows[..|rows| - 1], asWritten), rows[|rows| - 1], asWritten)
  }

  /** A group the merge did not keep. */
  function Unused(used: set<PeerGroup>): PeerGroup -> bool
  {
    g => g !in used
  }

  /**
   * The whole merge of `rows` into `peerGroups`: the rows, then the removal of
   * every group not kept. When a row throws, the groups are left as the rows
   * before it made them.
   */
  function Merged(peerGroups: seq<PeerGroup>, rows: seq<GridValues>, asWritten: bool): Merging
  {
    var m := MergeRows(Merging(peerGroups, {}, true), rows, asWritten);
    if m.ok then m.(groups := FilterOut(m.groups, Unused(m.used))) else m
  }

  /**
   * The merge the dialog runs when it is accepted. With `asWritten` it is the
   * code as it stands: an existing group its row leaves unchanged is not kept,
   * and `CreateGroup` passes the timings out of order. Without it, it is the
   * corrected merge.
   */
  method Merge(peerGroups: seq<PeerGroup>, rows: seq<GridRow>, asWritten: bool) returns (ok: bool, merged: seq<PeerGroup>)
    ensures ok == Merged(peerGroups, RowsValues(rows), asWritten).ok
    ensures merged == Merged(peerGroups, RowsValues(rows), asWritten).groups
  {
    ghost var values := RowsValues(rows);
    var groups := peerGroups;
    var usedGroups: set<PeerGroup> := {};
    var i := 0;
    while i < |rows|
      invariant i <= |rows| && values == RowsValues(rows)
      invariant MergeRows(Merging(peerGroups, {}, true), values[..i], asWritten) == Merging(groups, usedGroups, true)
    {
      ghost var groups0, used0 := groups, usedGroups;
      var placed;
      placed, groups, usedGroups := MergeRow(groups, usedGroups, rows[i], asWritten);
      MergeRowsNext(Merging(peerGroups, {}, true), values, i, Merging(groups0, used0, true), Merging(groups, usedGroups, placed), asWritten);
      if !placed {
        MergedFailed(peerGroups, values, i + 1, groups, usedGroups, asWritten);
        return false, groups;
      }
      i := i + 1;
    }
    MergedDone(peerGroups, values, groups, usedGroups, asWritten);
    var toRemove := Filter(groups, Unused(usedGroups));
    RemoveFilteredIsFilterOut(groups, Unused(usedGroups));
    merged := RemoveEach(groups, toRemove);
    ok := true;
  }

  /** A merge whose rows throw at row `n - 1` leaves the groups as the rows before it made them. */
  lemma MergedFailed(peerGroups: seq<PeerGroup>, rows: seq<GridValues>, n: nat, groups: seq<PeerGroup>, used: set<PeerGroup>,
                     asWritten: bool)
    requires n <= |rows| && MergeRows(Merging(peerGroups, {}, true), rows[..n], asWritten) == Merging(groups, used, false)
    ensures !Merged(peerGroups, rows, asWritten).ok && Merged(peerGroups, rows, asWritten).groups == groups
  {
    MergeRowsFailed(Merging(peerGroups, {}, true), rows, n, asWritten);
  }

  /** A merge whose rows all pass removes exactly the groups no row kept. */
  lemma MergedDone(peerGroups: seq<PeerGroup>, rows: seq<GridValues>, groups: seq<PeerGroup>, used: set<PeerGroup>, asWritten: bool)
    requires MergeRows(Merging(peerGroups, {}, true), rows[..|rows|], asWritten) == Merging(groups, used, true)
    ensures Merged(peerGroups, rows, asWritten) == Merging(FilterOut(groups, Unused(used)), used, true)
  {
    assert rows[..|rows|] == rows;
  }

  /**
   * The body of the merge loop: the row's group is appended, or replaces the
   * group with its id when it differs; a row without a name throws. Only the
   * corrected merge also keeps an existing group the row leaves unchanged.
   */
  method MergeRow(groups: seq<PeerGroup>, usedGroups: set<PeerGroup>, row: GridRow, asWritten: bool)
    returns (ok: bool, groups2: seq<PeerGroup>, usedGroups2: set<PeerGroup>)
    ensures MergeStep(Merging(groups, usedGroups, true), row.Values(), asWritten) == Merging(groups2, usedGroups2, ok)
  {
    var rowGroup := row.CreateGroup(asWritten);
    if rowGroup.None? {
      return false, groups, usedGroups;
    }
    groups2, usedGroups2 := groups, usedGroups;
    var existing := FindById(groups2, row.Id);
    if existing.None? {
      groups2 := groups2 + [rowGroup.value];
      usedGroups2 := usedGroups2 + {rowGroup.value};
    } else if Differs(groups2[existing.value], rowGroup.value) {
      var index := IndexOf(groups2, groups2[existing.value]);
      assert index == existing.value;
      groups2 := groups2[index := rowGroup.value];
      usedGroups2 := usedGroups2 + {rowGroup.value};
    } else if !asWritten {
      usedGroups2 := usedGroups2 + {rowGroup.value};
    }
    ok := true;
  }

  /** The rows up to index `i` are merged by merging row `i` into the rows before it. */
  lemma MergeRowsNext(m: Merging, rows: seq<GridValues>, i: nat, before: Merging, after: Merging, asWritten: bool)
    requires i < |rows|
    requires MergeRows(m, rows[..i], asWritten) == before && MergeStep(before, rows[i], asWritten) == after
    ensures MergeRows(m, rows[..i + 1], asWritten) == after
  {
    assert rows[..i + 1][..i] == rows[..i];
  }

  /** Once a row has thrown, the rows after it change nothing. */
  lemma {:induction false} MergeRowsFailed(m: Merging, rows: seq<GridValues>, n: nat, asWritten: bool)
    requires n <= |rows| && !MergeRows(m, rows[..n], asWritten).ok
    ensures MergeRows(m, rows, asWritten) == MergeRows(m, rows[..n], asWritten)
  {
    if n < |rows| {
      var front := rows[..|rows| - 1];
      assert front[..n] == rows[..n];
      MergeRowsFailed(m, front, n, asWritten);
    } else {
      assert rows[..n] == rows;
    }
  }

  // What the merge promises.

  /** The rows carry pairwise distinct ids: one row per group, new rows with new ids. */
  predicate DistinctRowIds(rows: seq<GridValues>)
  {
    forall i, j :: 0 <= i < j < |rows| ==> rows[i].Id != rows[j].Id
  }

  predicate AllNamed(rows: seq<GridValues>)
  {
    forall k :: 0 <= k < |rows| ==> !IsNullOrEmpty(rows[k].Name)
  }

  /** The merge runs to the end exactly when every row has a name. */
  lemma {:induction false} MergeRowsOkIffNamed(m: Merging, rows: seq<GridValues>, asWritten: bool)
    requires m.ok
    ensures MergeRows(m, rows, asWritten).ok <==> AllNamed(rows)
  {
    if rows != [] {
      var front := rows[..|rows| - 1];
      MergeRowsOkIffNamed(m, front, asWritten);
      assert forall k :: 0 <= k < |front| ==> front[k] == rows[k];
    }
  }

  lemma MergedOkIffNamed(peerGroups: seq<PeerGroup>, rows: seq<GridValues>, asWritten: bool)
    ensures Merged(peerGroups, rows, asWritten).ok <==> AllNamed(rows)
  {
    MergeRowsOkIffNamed(Merging(peerGroups, {}, true), rows, asWritten);
  }

  /**
   * One row places its group: appended when no group has its id, otherwise
   * written at the index of the first group with its id, all others untouched.
   */
  lemma MergeStepPlaces(m: Merging, row: GridValues, asWritten: bool)
    requires m.ok && !IsNullOrEmpty(row.Name)
    ensures var g := (if asWritten then GroupOfAsWritten(row) else GroupOf(row)).value;
            var r := MergeStep(m, row, asWritten);
            var found := FindById(m.groups, row.Id);
            && r.ok
            && (found.None? ==> r.groups == m.groups + [g] && g in r.used)
            && (found.Some? ==> |r.groups| == |m.groups| && r.groups[found.value] == g
                                && (forall j :: 0 <= j < |m.groups| && j != found.value ==> r.groups[j] == m.groups[j]))
  {
  }

  /** What holds of the corrected merge after every prefix of the rows. */
  ghost predicate MergeInvariant(m: Merging, rows: seq<GridValues>)
  {
    && m.ok && DistinctIds(m.groups)
    && (forall g :: g in m.used ==> g in m.groups)
    && (forall g :: g in m.used <==> exists k :: 0 <= k < |rows| && GroupOf(rows[k]) == Some(g))
  }

  lemma {:induction false} MergeRowsInvariant(peerGroups: seq<PeerGroup>, rows: seq<GridValues>)
    requires DistinctIds(peerGroups) && DistinctRowIds(rows) && AllNamed(rows)
    ensures MergeInvariant(MergeRows(Merging(peerGroups, {}, true), rows, false), rows)
  {
    if rows != [] {
      var front := rows[..|rows| - 1];
      var last := rows[|rows| - 1];
      assert forall k :: 0 <= k < |front| ==> front[k] == rows[k];
      MergeRowsInvariant(peerGroups, front);
      var m := MergeRows(Merging(peerGroups, {}, true), front, false);
      MergeStepInvariant(m, front, last);
      assert front + [last] == rows;
    }
  }

  lemma MergeStepInvariant(m: Merging, front: seq<GridValues>, last: GridValues)
    requires MergeInvariant(m, front) && DistinctRowIds(front + [last]) && !IsNullOrEmpty(last.Name)
    ensures MergeInvariant(MergeStep(m, last, false), front + [last])
  {
    var rows := front + [last];
    assert forall k :: 0 <= k < |front| ==> rows[k] == front[k];
    assert rows[|front|] == last;
    forall u | u in m.used
      ensures u.Id != last.Id
    {
      var k :| 0 <= k < |front| && GroupOf(front[k]) == Some(u);
      assert rows[k].Id != rows[|front|].Id;
    }
    MergeStepGroups(m, last);
    MergeStepUsed(m, front, last);
  }

  /** The step keeps the ids distinct and every kept group among the groups. */
  lemma MergeStepGroups(m: Merging, last: GridValues)
    requires m.ok && DistinctIds(m.groups) && !IsNullOrEmpty(last.Name)
    requires forall u :: u in m.used ==> u in m.groups && u.Id != last.Id
    ensures var r := MergeStep(m, last, false);
            DistinctIds(r.groups) && forall u :: u in r.used ==> u in r.groups
  {
    var g := GroupOf(last).value;
    var r := MergeStep(m, last, false);
    assert r.used == m.used + {g};
    var found := FindById(m.groups, last.Id);
    if found.None? {
      assert r.groups == m.groups + [g];
      assert r.groups[|m.groups|] == g;
      assert forall j :: 0 <= j < |m.groups| ==> r.groups[j] == m.groups[j];
    } else {
      var k := found.value;
      if Differs(m.groups[k], g) {
        assert r.groups == m.groups[k := g];
      } else {
        assert g == m.groups[k];
        assert r.groups == m.groups;
      }
      assert r.groups[k] == g;
      forall u | u in m.used
        ensures u in r.groups
      {
        var j :| 0 <= j < |m.groups| && m.groups[j] == u;
        assert r.groups[j] == u;
      }
    }
  }

  /** The step keeps exactly the groups of the rows so far. */
  lemma MergeStepUsed(m: Merging, front: seq<GridValues>, last: GridValues)
    requires m.ok && !IsNullOrEmpty(last.Name)
    requires forall u :: u in m.used <==> exists k :: 0 <= k < |front| && GroupOf(front[k]) == Some(u)
    ensures var r := MergeStep(m, last, false);
            forall u :: u in r.used <==> exists k :: 0 <= k < |front + [last]| && GroupOf((front + [last])[k]) == Some(u)
  {
    var rows := front + [last];
    var g := GroupOf(last).value;
    var r := MergeStep(m, last, false);
    assert r.used == m.used + {g};
    assert forall k :: 0 <= k < |front| ==> rows[k] == front[k];
    assert rows[|front|] == last;
    forall x | x in r.used
      ensures exists k :: 0 <= k < |rows| && GroupOf(rows[k]) == Some(x)
    {
      if x == g {
        assert GroupOf(rows[|front|]) == Some(x);
      } else {
        var k :| 0 <= k < |front| && GroupOf(front[k]) == Some(x);
        assert GroupOf(rows[k]) == Some(x);
      }
    }
    forall x, k | 0 <= k < |rows| && GroupOf(rows[k]) == Some(x)
      ensures x in r.used
    {
      if k < |front| {
        assert GroupOf(front[k]) == Some(x);
      }
    }
  }

  /**
   * The corrected merge, over rows with distinct ids that all have names:
   * the groups afterwards are exactly the rows' groups, each id once.
   */
  lemma MergedIsRows(peerGroups: seq<PeerGroup>, rows: seq<GridValues>)
    requires DistinctIds(peerGroups) && DistinctRowIds(rows) && AllNamed(rows)
    ensures var r := Merged(peerGroups, rows, false);
            && r.ok
            && (forall g :: g in r.groups <==> exists k :: 0 <= k < |rows| && GroupOf(rows[k]) == Some(g))
  {
    MergeRowsInvariant(peerGroups, rows);
    var m := MergeRows(Merging(peerGroups, {}, true), rows, false);
    FilterOutMembers(m.groups, Unused(m.used));
  }


  // What the merge as written does.

  /**
   * Under the code as written, a row keeps group `g` exactly when `g` is the
   * row's group and either no group had the row's id, or the group with that
   * id differed from `g`.
   */
  predicate KeptAsWritten(peerGroups: seq<PeerGroup>, row: GridValues, g: PeerGroup)
  {
    && GroupOfAsWritten(row) == Some(g)
    && var found := FindById(peerGroups, row.Id);
       (found.None? || Differs(peerGroups[found.value], g))
  }

  /** `groups` has a group with `id` exactly when `peerGroups` has one, and it is the same group. */
  predicate SameById(peerGroups: seq<PeerGroup>, groups: seq<PeerGroup>, id: Guid)
  {
    var a := FindById(peerGroups, id);
    var b := FindById(groups, id);
    a.None? == b.None? && (a.Some? ==> peerGroups[a.value] == groups[b.value])
  }

  /** What holds of the merge as written after every prefix of the rows. */
  ghost predicate AsWrittenInvariant(peerGroups: seq<PeerGroup>, m: Merging, rows: seq<GridValues>)
  {
    && m.ok
    && (forall g :: g in m.used ==> g in m.groups)
    && (forall g :: g in m.used <==> exists k :: 0 <= k < |rows| && KeptAsWritten(peerGroups, rows[k], g))
    && (forall id :: (forall k :: 0 <= k < |rows| ==> rows[k].Id != id) ==> SameById(peerGroups, m.groups, id))
  }

  /** Appending a group with another id does not change which group has `id`. */
  lemma {:induction false} FindByIdAppend(groups: seq<PeerGroup>, g: PeerGroup, id: Guid)
    requires g.Id != id
    ensures FindById(groups + [g], id) == FindById(groups, id)
  {
    if groups != [] {
      assert (groups + [g])[1..] == groups[1..] + [g];
      FindByIdAppend(groups[1..], g, id);
    }
  }

  /** Overwriting a group whose id is not `id` with another such group does not change which group has `id`. */
  lemma {:induction false} FindByIdUpdate(groups: seq<PeerGroup>, f: nat, g: PeerGroup, id: Guid)
    requires f < |groups| && groups[f].Id != id && g.Id != id
    ensures FindById(groups[f := g], id) == FindById(groups, id)
  {
    if f > 0 {
      assert groups[f := g][1..] == groups[1..][f - 1 := g];
      FindByIdUpdate(groups[1..], f - 1, g, id);
    }
  }

  lemma {:induction false} MergeRowsAsWritten(peerGroups: seq<PeerGroup>, rows: seq<GridValues>)
    requires DistinctRowIds(rows) && AllNamed(rows)
    ensures AsWrittenInvariant(peerGroups, MergeRows(Merging(peerGroups, {}, true), rows, true), rows)
  {
    if rows != [] {
      var front := rows[..|rows| - 1];
      var last := rows[|rows| - 1];
      assert forall k :: 0 <= k < |front| ==> front[k] == rows[k];
      MergeRowsAsWritten(peerGroups, front);
      var m := MergeRows(Merging(peerGroups, {}, true), front, true);
      assert front + [last] == rows;
      AsWrittenStep(peerGroups, m, front, last);
    }
  }

  lemma AsWrittenStep(peerGroups: seq<PeerGroup>, m: Merging, front: seq<GridValues>, last: GridValues)
    requires AsWrittenInvariant(peerGroups, m, front) && DistinctRowIds(front + [last]) && !IsNullOrEmpty(last.Name)
    ensures AsWrittenInvariant(peerGroups, MergeStep(m, last, true), front + [last])
  {
    var rows := front + [last];
    assert forall k :: 0 <= k < |front| ==> rows[k] == front[k];
    assert rows[|front|] == last;
    assert forall k :: 0 <= k < |front| ==> front[k].Id != last.Id by {
      forall k | 0 <= k < |front|
        ensures front[k].Id != last.Id
      {
        assert rows[k].Id != rows[|front|].Id;
      }
    }
    assert SameById(peerGroups, m.groups, last.Id);
    forall u | u in m.used
      ensures u.Id != last.Id
    {
      var k :| 0 <= k < |front| && KeptAsWritten(peerGroups, front[k], u);
    }
    AsWrittenStepGroups(peerGroups, m, front, last);
    AsWrittenStepUsed(peerGroups, m, front, last);
  }

  /** The step keeps every kept group among the groups, and the groups of the ids still to come as they were. */
  lemma AsWrittenStepGroups(peerGroups: seq<PeerGroup>, m: Merging, front: seq<GridValues>, last: GridValues)
    requires m.ok && !IsNullOrEmpty(last.Name)
    requires forall u :: u in m.used ==> u in m.groups && u.Id != last.Id
    requires forall id :: (forall k :: 0 <= k < |front| ==> front[k].Id != id) ==> SameById(peerGroups, m.groups, id)
    ensures var r := MergeStep(m, last, true);
            && (forall u :: u in r.used ==> u in r.groups)
            && (forall id :: (forall k :: 0 <= k < |front + [last]| ==> (front + [last])[k].Id != id) ==> SameById(peerGroups, r.groups, id))
  {
    var rows := front + [last];
    var g := GroupOfAsWritten(last).value;
    var r := MergeStep(m, last, true);
    var found := FindById(m.groups, last.Id);
    forall id | forall k :: 0 <= k < |rows| ==> rows[k].Id != id
      ensures SameById(peerGroups, r.groups, id)
    {
      assert forall k :: 0 <= k < |front| ==> front[k].Id == rows[k].Id;
      assert rows[|front|] == last;
      assert SameById(peerGroups, m.groups, id);
      if found.None? {
        FindByIdAppend(m.groups, g, id);
      } else if Differs(m.groups[found.value], g) {
        FindByIdUpdate(m.groups, found.value, g, id);
      }
    }
    if found.None? {
      assert r.groups == m.groups + [g];
      assert r.groups[|m.groups|] == g;
      assert forall j :: 0 <= j < |m.groups| ==> r.groups[j] == m.groups[j];
    } else if Differs(m.groups[found.value], g) {
      var f := found.value;
      assert r.groups == m.groups[f := g];
      assert r.groups[f] == g;
      forall u | u in m.used
        ensures u in r.groups
      {
        var j :| 0 <= j < |m.groups| && m.groups[j] == u;
        assert j != f;
        assert r.groups[j] == u;
      }
    }
  }

  /** The step keeps exactly the groups the rows so far keep. */
  lemma AsWrittenStepUsed(peerGroups: seq<PeerGroup>, m: Merging, front: seq<GridValues>, last: GridValues)
    requires m.ok && !IsNullOrEmpty(last.Name) && SameById(peerGroups, m.groups, last.Id)
    requires forall u :: u in m.used <==> exists k :: 0 <= k < |front| && KeptAsWritten(peerGroups, front[k], u)
    ensures var r := MergeStep(m, last, true);
            forall u :: u in r.used <==> exists k :: 0 <= k < |front + [last]| && KeptAsWritten(peerGroups, (front + [last])[k], u)
  {
    var rows := front + [last];
    var g := GroupOfAsWritten(last).value;
    var r := MergeStep(m, last, true);
    var found := FindById(m.groups, last.Id);
    var kept := found.None? || Differs(m.groups[found.value], g);
    assert KeptAsWritten(peerGroups, last, g) <==> kept;
    assert r.used == if kept then m.used + {g} else m.used;
    assert forall k :: 0 <= k < |front| ==> rows[k] == front[k];
    assert rows[|front|] == last;
    forall x | x in r.used
      ensures exists k :: 0 <= k < |rows| && KeptAsWritten(peerGroups, rows[k], x)
    {
      if x in m.used {
        var k :| 0 <= k < |front| && KeptAsWritten(peerGroups, front[k], x);
        assert KeptAsWritten(peerGroups, rows[k], x);
      } else {
        assert KeptAsWritten(peerGroups, rows[|front|], x);
      }
    }
    forall x, k | 0 <= k < |rows| && KeptAsWritten(peerGroups, rows[k], x)
      ensures x in r.used
    {
      if k < |front| {
        assert KeptAsWritten(peerGroups, front[k], x);
      }
    }
  }

  /**
   * The merge as written, over rows with distinct ids that all have names:
   * the groups afterwards are exactly those some row appended, or wrote over
   * an existing group it differed from.
   */
  lemma MergedAsWrittenKeeps(peerGroups: seq<PeerGroup>, rows: seq<GridValues>)
    requires DistinctRowIds(rows) && AllNamed(rows)
    ensures var r := Merged(peerGroups, rows, true);
            && r.ok
            && (forall g :: g in r.groups <==> exists k :: 0 <= k < |rows| && KeptAsWritten(peerGroups, rows[k], g))
  {
    MergeRowsAsWritten(peerGroups, rows);
    var m := MergeRows(Merging(peerGroups, {}, true), rows, true);
    FilterOutMembers(m.groups, Unused(m.used));
  }

  /**
   * As written, an existing group that its row leaves unchanged is removed:
   * afterwards no group has that row's id. The corrected merge keeps the
   * row's group.
   */
  lemma MergeAsWrittenDropsUnchanged(peerGroups: seq<PeerGroup>, rows: seq<GridValues>, k: nat)
    requires DistinctRowIds(rows) && AllNamed(rows) && k < |rows|
    requires FindById(peerGroups, rows[k].Id).Some?
    requires !Differs(peerGroups[FindById(peerGroups, rows[k].Id).value], GroupOfAsWritten(rows[k]).value)
    ensures forall g :: g in Merged(peerGroups, rows, true).groups ==> g.Id != rows[k].Id
    ensures DistinctIds(peerGroups) ==> GroupOf(rows[k]).value in Merged(peerGroups, rows, false).groups
  {
    MergedAsWrittenKeeps(peerGroups, rows);
    forall g | g in Merged(peerGroups, rows, true).groups
      ensures g.Id != rows[k].Id
    {
      var j :| 0 <= j < |rows| && KeptAsWritten(peerGroups, rows[j], g);
      if j != k {
        assert rows[j].Id != rows[k].Id by {
          if j < k {
            assert rows[j].Id != rows[k].Id;
          } else {
            assert rows[k].Id != rows[j].Id;
          }
        }
      }
    }
    if DistinctIds(peerGroups) {
      MergedIsRows(peerGroups, rows);
    }
  }

  /**
   * One group whose timings are all 5 s, its row untouched: as written it
   * survives the swapped `CreateGroup` unchanged, is not kept, and disappears;
   * the corrected merge keeps it.
   */
  lemma MergeAsWrittenExample()
    ensures var g := PeerGroup("g", 5000, 5000, 5000, 1);
            && Merged([g], [RowOf(g)], true).groups == []
            && Merged([g], [RowOf(g)], false).groups == [g]
  {
    var g := PeerGroup("g", 5000, 5000, 5000, 1);
    var row := RowOf(g);
    assert row == GridValues(Some("g"), 5, 5000, 5, 1);
    assert GroupOfAsWritten(row) == Some(g);
    assert GroupOf(row) == Some(g);
    assert FindById([g], 1) == Some(0);
    var init := Merging([g], {}, true);
    assert [row][..0] == [];
    assert MergeRows(init, [row], true) == init;
    assert MergeRows(init, [row], false) == init.(used := {g});
    assert FilterOut([g], Unused({})) == FilterOut([], Unused({}));
    assert FilterOut([g], Unused({g})) == [g] + FilterOut([], Unused({g}));
  }
}
