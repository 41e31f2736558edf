/**
 * The main window's status grid as values: one row per (group, location) of
 * the last poll, found again by a text key on the next poll so that a row is
 * reused rather than rebuilt, and dropped once its key no longer comes back.
 * `MainWindows` keeps its row list and row map as these predicates describe.
 */
module StatusGrids {

  import opened PeerGroupStates
  import opened LocationStates
  import opened Sequences
  import opened StateManagers
  import opened StatusRows

  /** The row key: the group's name, two NUL characters, the location's name. */
  function RowKey(groupName: string, locationName: string): string
  {
    groupName + "\0\0" + locationName
  }

  /** The first NUL of a key ends the group name, so a NUL-free group name can be read back off the key. */
  lemma {:induction false} RowKeyPrefix(groupName: string, locationName: string, key: string)
    requires '\0' !in groupName && key == RowKey(groupName, locationName)
    ensures '\0' in key && key[|groupName|] == '\0'
    ensures forall i :: 0 <= i < |groupName| ==> key[i] != '\0'
  {
    assert key[|groupName|] == "\0\0"[0];
    forall i | 0 <= i < |groupName|
      ensures key[i] != '\0'
    {
      assert key[i] == groupName[i];
    }
  }

  /**
   * Two rows share a key only when they have the same group name and the same
   * location name, provided the group names hold no NUL.
   */
  lemma RowKeyInjective(g1: string, l1: string, g2: string, l2: string)
    requires '\0' !in g1 && '\0' !in g2
    ensures RowKey(g1, l1) == RowKey(g2, l2) <==> g1 == g2 && l1 == l2
  {
    var key := RowKey(g1, l1);
    if key == RowKey(g2, l2) {
      RowKeyPrefix(g1, l1, key);
      RowKeyPrefix(g2, l2, key);
      assert g1 == key[..|g1|] && g2 == key[..|g2|];
      assert l1 == key[|g1| + 2..] && l2 == key[|g2| + 2..];
    }
  }

  /** The separator is not escaped: a NUL at the end of a group name makes a different row collide. */
  lemma RowKeyCollision()
    ensures RowKey("a\0", "b") == RowKey("a", "\0b")
  {
    assert RowKey("a\0", "b") == "a\0\0\0b";
  }

  /** One (group, location) pair of the states, the content of one row. */
  datatype Cell = Cell(group: GroupRecord, location: LocationRecord)

  function CellKey(c: Cell): string
  {
    RowKey(c.group.PeerGroup.Name, c.location.Location.Name)
  }

  /** The cells of one entry of the states, in location order. */
  function CellsOf(pair: Published): (r: seq<Cell>)
    decreases |pair.locations|
    ensures |r| == |pair.locations|
    ensures forall j :: 0 <= j < |r| ==> r[j] == Cell(pair.group, pair.locations[j])
  {
    if pair.locations == [] then []
    else [Cell(pair.group, pair.locations[0])] + CellsOf(Published(pair.group, pair.locations[1..]))
  }

  /** The cells of all entries, in the order the two loops visit them. */
  function Cells(states: seq<Published>): seq<Cell>
    decreases |states|
  {
    if states == [] then [] else Cells(states[..|states| - 1]) + CellsOf(states[|states| - 1])
  }

  function KeysOf(cells: seq<Cell>): seq<string>
  {
    Map(cells, CellKey)
  }

  /** The loops reach every cell: the cells of the first `i` entries come first. */
  lemma {:induction false} CellsPrefix(states: seq<Published>, i: nat)
    requires i <= |states|
    ensures |Cells(states[..i])| <= |Cells(states)| && Cells(states)[..|Cells(states[..i])|] == Cells(states[..i])
    decreases |states| - i
  {
    if i < |states| {
      CellsPrefix(states, i + 1);
      assert states[..i + 1][..i] == states[..i];
      var longer := Cells(states[..i + 1]);
      assert longer == Cells(states[..i]) + CellsOf(states[i]);
      assert longer[..|Cells(states[..i])|] == Cells(states[..i]);
    } else {
      assert states[..i] == states;
    }
  }

  /** The cells of one more entry follow those of the entries before it. */
  lemma CellsStep(states: seq<Published>, i: nat)
    requires i < |states|
    ensures Cells(states[..i + 1]) == Cells(states[..i]) + CellsOf(states[i])
  {
    assert states[..i + 1][..i] == states[..i];
  }

  /** A key repeated early is still repeated in a longer list. */
  lemma RepeatedInLonger(cells: seq<Cell>, n: nat)
    requires n <= |cells| && !Distinct(KeysOf(cells[..n]))
    ensures !Distinct(KeysOf(cells))
  {
    MapPrefix(cells, n, CellKey);
    var i, j :| 0 <= i < j < n && KeysOf(cells[..n])[i] == KeysOf(cells[..n])[j];
    assert KeysOf(cells)[i] == KeysOf(cells)[j];
  }

  /** A key repeated within the first `i + 1` entries is repeated among all of them. */
  lemma RepeatedInStates(states: seq<Published>, i: nat)
    requires i < |states| && !Distinct(KeysOf(Cells(states[..i]) + CellsOf(states[i])))
    ensures !Distinct(KeysOf(Cells(states)))
  {
    CellsStep(states, i);
    CellsPrefix(states, i + 1);
    RepeatedInLonger(Cells(states), |Cells(states[..i + 1])|);
  }

  function NotKeyOf(rows: map<string, StatusRow>): string -> bool
  {
    (k: string) => k !in rows
  }

  /** The keys without a row yet, in order: the rows `UpdateStates` creates, in the order it appends them. */
  function NewKeys(keys: seq<string>, rows: map<string, StatusRow>): seq<string>
  {
    Filter(keys, NotKeyOf(rows))
  }

  /** The rows of the keys that did not come back. */
  function StaleRows(rows: map<string, StatusRow>, kept: map<string, StatusRow>): set<StatusRow>
  {
    set k | k in rows && k !in kept :: rows[k]
  }

  function InRows(rows: set<StatusRow>): StatusRow -> bool
  {
    (r: StatusRow) => r in rows
  }

  /** No two keys share a row. */
  predicate Injective(rows: map<string, StatusRow>)
  {
    forall a, b :: a in rows && b in rows && a != b ==> rows[a] != rows[b]
  }

  /** Each key has its own row, and the list holds it. */
  predicate Keeps(rows: map<string, StatusRow>, shown: seq<StatusRow>)
  {
    Injective(rows) && forall k :: k in rows ==> rows[k] in shown
  }

  /** The grid's list shows each row once, and its rows are exactly those of the map, one per key. */
  predicate Shows(rows: map<string, StatusRow>, shown: seq<StatusRow>)
  {
    && Distinct(shown)
    && Keeps(rows, shown)
    && (forall i :: 0 <= i < |shown| ==> shown[i] in rows.Values)
  }

  /**
   * Part way through the loops, after the cells `cells`: `chosen` maps their
   * keys (each met once), and `added` lists, in order, those of them that had
   * no row in the old map `rows`.
   */
  ghost predicate KeysPlaced(rows: map<string, StatusRow>, cells: seq<Cell>, chosen: map<string, StatusRow>, added: seq<string>)
  {
    && Distinct(KeysOf(cells))
    && (forall k :: k in chosen <==> k in KeysOf(cells))
    && added == NewKeys(KeysOf(cells), rows)
  }

  /**
   * ... and `chosen` gives each key the row of the old map where there was one,
   * else a row appended, in the order of `added`, after the old list `before`.
   */
  ghost predicate RowsPlaced(rows: map<string, StatusRow>, before: seq<StatusRow>,
                             chosen: map<string, StatusRow>, shown: seq<StatusRow>, added: seq<string>)
  {
    && (forall k :: k in chosen && k in rows ==> chosen[k] == rows[k])
    && (forall k :: k in chosen && k !in rows ==> k in added && chosen[k] !in before)
    && |shown| == |before| + |added| && shown[..|before|] == before
    && (forall t :: 0 <= t < |added| ==> added[t] in chosen && shown[|before| + t] == chosen[added[t]])
    && Distinct(shown)
  }

  ghost predicate Placed(rows: map<string, StatusRow>, before: seq<StatusRow>, cells: seq<Cell>,
                         chosen: map<string, StatusRow>, shown: seq<StatusRow>, added: seq<string>)
  {
    KeysPlaced(rows, cells, chosen, added) && RowsPlaced(rows, before, chosen, shown, added)
  }

  /** Each placed key's row shows its cell. */
  predicate ShowsCells(chosen: map<string, StatusRow>, cells: seq<Cell>)
    reads set k | k in chosen :: chosen[k]
  {
    forall t :: 0 <= t < |cells| ==>
      CellKey(cells[t]) in chosen && chosen[CellKey(cells[t])].Values() == Shown(cells[t].group, cells[t].location)
  }

  /**
   * The map the loops build from `keys`, met in order: a key of the old map
   * `rows` keeps its row, and the t-th key without one gets `appended[t]`, the
   * t-th row appended to the list.
   */
  function Assigned(rows: map<string, StatusRow>, keys: seq<string>, appended: seq<StatusRow>): map<string, StatusRow>
    requires |NewKeys(keys, rows)| <= |appended|
    decreases |keys|
  {
    if keys == [] then map[]
    else if keys[0] in rows then Assigned(rows, keys[1..], appended)[keys[0] := rows[keys[0]]]
    else Assigned(rows, keys[1..], appended[1..])[keys[0] := appended[0]]
  }

  /** The map holds exactly the keys met. */
  lemma {:induction false} AssignedKeys(rows: map<string, StatusRow>, keys: seq<string>, appended: seq<StatusRow>)
    requires |NewKeys(keys, rows)| <= |appended|
    ensures forall k :: k in Assigned(rows, keys, appended) <==> k in keys
    decreases |keys|
  {
    if keys != [] {
      if keys[0] in rows {
        AssignedKeys(rows, keys[1..], appended);
      } else {
        AssignedKeys(rows, keys[1..], appended[1..]);
      }
      assert keys == [keys[0]] + keys[1..];
    }
  }

  /** A key that had a row keeps it. */
  lemma {:induction false} AssignedOld(rows: map<string, StatusRow>, keys: seq<string>, appended: seq<StatusRow>)
    requires |NewKeys(keys, rows)| <= |appended|
    ensures forall k :: k in Assigned(rows, keys, appended) && k in rows ==> Assigned(rows, keys, appended)[k] == rows[k]
    decreases |keys|
  {
    if keys != [] {
      if keys[0] in rows {
        AssignedOld(rows, keys[1..], appended);
      } else {
        AssignedOld(rows, keys[1..], appended[1..]);
      }
    }
  }

  /** With no key met twice, the t-th new key gets the t-th appended row. */
  lemma {:induction false} AssignedNew(rows: map<string, StatusRow>, keys: seq<string>, appended: seq<StatusRow>)
    requires |NewKeys(keys, rows)| <= |appended| && Distinct(keys)
    ensures forall t :: 0 <= t < |NewKeys(keys, rows)| ==>
              NewKeys(keys, rows)[t] in Assigned(rows, keys, appended)
              && Assigned(rows, keys, appended)[NewKeys(keys, rows)[t]] == appended[t]
    decreases |keys|
  {
    if keys != [] {
      var rest := keys[1..];
      assert forall i, j :: 0 <= i < j < |rest| ==> rest[i] == keys[i + 1] && rest[j] == keys[j + 1];
      assert keys[0] !in rest by {
        assert forall i :: 0 <= i < |rest| ==> rest[i] == keys[i + 1];
      }
      FilterMembers(rest, NotKeyOf(rows));
      var tail := NewKeys(rest, rows);
      assert forall t :: 0 <= t < |tail| ==> tail[t] in tail;
      if keys[0] in rows {
        AssignedNew(rows, rest, appended);
      } else {
        AssignedNew(rows, rest, appended[1..]);
        assert NewKeys(keys, rows) == [keys[0]] + tail;
      }
    }
  }

  /** One more key, met for the first time: its row joins the map, a new key's row being the next appended one. */
  lemma {:induction false} AssignedSnoc(rows: map<string, StatusRow>, keys: seq<string>, appended: seq<StatusRow>,
                                        k: string, row: StatusRow)
    requires |NewKeys(keys, rows)| == |appended| && k !in keys
    requires k in rows ==> row == rows[k]
    ensures var appended2 := if k in rows then appended else appended + [row];
            && |NewKeys(keys + [k], rows)| == |appended2|
            && Assigned(rows, keys + [k], appended2) == Assigned(rows, keys, appended)[k := row]
    decreases |keys|
  {
    var appended2 := if k in rows then appended else appended + [row];
    FilterAppend(keys, [k], NotKeyOf(rows));
    assert Filter([k], NotKeyOf(rows)) == if k in rows then [] else [k];
    if keys == [] {
      assert keys + [k] == [k] && [k][1..] == [];
    } else {
      var rest := keys[1..];
      assert (keys + [k])[0] == keys[0] && (keys + [k])[1..] == rest + [k];
      assert keys[0] != k;
      if keys[0] in rows {
        AssignedSnoc(rows, rest, appended, k, row);
      } else {
        assert appended2[1..] == if k in rows then appended[1..] else appended[1..] + [row];
        AssignedSnoc(rows, rest, appended[1..], k, row);
      }
    }
  }

  /**
   * Part way through the loops, after the cells `cells`, each key met once:
   * the list `shown` is the old list `before` followed by the rows `appended`,
   * one per key without an old row, and `chosen` is the map those keys give.
   */
  ghost predicate Planned(rows: map<string, StatusRow>, before: seq<StatusRow>, cells: seq<Cell>,
                          chosen: map<string, StatusRow>, shown: seq<StatusRow>, appended: seq<StatusRow>)
  {
    && Distinct(KeysOf(cells))
    && |appended| == |NewKeys(KeysOf(cells), rows)|
    && shown == before + appended
    && Distinct(shown)
    && chosen == Assigned(rows, KeysOf(cells), appended)
  }

  /** Before the first cell nothing is placed. */
  lemma PlannedInitially(rows: map<string, StatusRow>, before: seq<StatusRow>)
    requires Distinct(before)
    ensures Planned(rows, before, [], map[], before, [])
  {
    assert before + [] == before;
  }

  /** A key is in the map exactly when one of the cells has it. */
  lemma PlannedKey(rows: map<string, StatusRow>, before: seq<StatusRow>, cells: seq<Cell>,
                   chosen: map<string, StatusRow>, shown: seq<StatusRow>, appended: seq<StatusRow>, key: string)
    requires Planned(rows, before, cells, chosen, shown, appended)
    ensures key in chosen <==> key in KeysOf(cells)
  {
    AssignedKeys(rows, KeysOf(cells), appended);
  }

  /** A cell whose key is new joins the placed cells with `row`. */
  lemma PlannedStep(rows: map<string, StatusRow>, before: seq<StatusRow>, cells: seq<Cell>,
                    chosen: map<string, StatusRow>, shown: seq<StatusRow>, appended: seq<StatusRow>,
                    c: Cell, row: StatusRow, shown2: seq<StatusRow>)
    requires Planned(rows, before, cells, chosen, shown, appended)
    requires CellKey(c) !in chosen
    requires CellKey(c) in rows ==> row == rows[CellKey(c)] && shown2 == shown
    requires CellKey(c) !in rows ==> row !in shown && shown2 == shown + [row]
    ensures Planned(rows, before, cells + [c], chosen[CellKey(c) := row], shown2,
                    if CellKey(c) in rows then appended else appended + [row])
  {
    var key := CellKey(c);
    var keys := KeysOf(cells);
    var keys2 := KeysOf(cells + [c]);
    AssignedKeys(rows, keys, appended);
    assert keys2 == keys + [key];
    forall i, j | 0 <= i < j < |keys2|
      ensures keys2[i] != keys2[j]
    {
      if j == |keys| {
        assert keys2[i] == keys[i];
      }
    }
    AssignedSnoc(rows, keys, appended, key, row);
    if key !in rows {
      assert shown2 == before + (appended + [row]);
      forall i, j | 0 <= i < j < |shown2|
        ensures shown2[i] != shown2[j]
      {
        if j == |shown| {
          assert shown[i] in shown;
        }
      }
    }
  }

  /** The placement as the map and the list describe it, key by key and row by row. */
  lemma PlannedPlaced(rows: map<string, StatusRow>, before: seq<StatusRow>, cells: seq<Cell>,
                      chosen: map<string, StatusRow>, shown: seq<StatusRow>, appended: seq<StatusRow>)
    requires Planned(rows, before, cells, chosen, shown, appended)
    ensures Placed(rows, before, cells, chosen, shown, NewKeys(KeysOf(cells), rows))
  {
    var keys := KeysOf(cells);
    var added := NewKeys(keys, rows);
    AssignedKeys(rows, keys, appended);
    AssignedOld(rows, keys, appended);
    AssignedNew(rows, keys, appended);
    FilterMembers(keys, NotKeyOf(rows));
    assert shown[..|before|] == before;
    forall t | 0 <= t < |added|
      ensures added[t] in chosen && shown[|before| + t] == chosen[added[t]]
    {
    }
    forall k | k in chosen && k !in rows
      ensures k in added && chosen[k] !in before
    {
      assert NotKeyOf(rows)(k);
      var t :| 0 <= t < |added| && added[t] == k;
      assert chosen[k] == shown[|before| + t];
      forall i | 0 <= i < |before|
        ensures before[i] != chosen[k]
      {
        assert before[i] == shown[i];
      }
    }
  }

  /** The row a key without an entry yet is given is the row of no other key. */
  lemma RowIsNew(rows: map<string, StatusRow>, before: seq<StatusRow>, cells: seq<Cell>,
                 chosen: map<string, StatusRow>, shown: seq<StatusRow>, appended: seq<StatusRow>,
                 key: string, row: StatusRow)
    requires Keeps(rows, before)
    requires Planned(rows, before, cells, chosen, shown, appended)
    requires key !in chosen
    requires key in rows ==> row == rows[key]
    requires key !in rows ==> row !in shown
    ensures row !in chosen.Values
  {
    PlannedPlaced(rows, before, cells, chosen, shown, appended);
    var added := NewKeys(KeysOf(cells), rows);
    assert forall r :: r in before ==> r in shown[..|before|];
    forall k | k in chosen
      ensures chosen[k] != row
    {
      if k in rows {
        assert chosen[k] == rows[k] && rows[k] in before;
      } else {
        var t :| 0 <= t < |added| && added[t] == k;
        assert chosen[k] == shown[|before| + t];
      }
    }
  }

  /** What the rows of the placed keys display: each placed key's value shows its cell. */
  ghost predicate CellsShown(vals: map<string, StatusValues>, cells: seq<Cell>)
  {
    forall t :: 0 <= t < |cells| ==>
      CellKey(cells[t]) in vals && vals[CellKey(cells[t])] == Shown(cells[t].group, cells[t].location)
  }

  /** A cell whose key is not placed yet joins the shown cells with its own values. */
  lemma CellsShownStep(vals: map<string, StatusValues>, cells: seq<Cell>, c: Cell)
    requires CellsShown(vals, cells) && CellKey(c) !in KeysOf(cells)
    ensures CellsShown(vals[CellKey(c) := Shown(c.group, c.location)], cells + [c])
  {
    var vals2 := vals[CellKey(c) := Shown(c.group, c.location)];
    forall t | 0 <= t < |cells + [c]|
      ensures CellKey((cells + [c])[t]) in vals2
      ensures vals2[CellKey((cells + [c])[t])] == Shown((cells + [c])[t].group, (cells + [c])[t].location)
    {
      if t < |cells| {
        assert (cells + [c])[t] == cells[t];
        assert KeysOf(cells)[t] == CellKey(cells[t]);
      }
    }
  }

  /** Rows that display `vals` show the cells `vals` shows. */
  lemma ShowsCellsFrom(chosen: map<string, StatusRow>, vals: map<string, StatusValues>, cells: seq<Cell>)
    requires forall k :: k in chosen ==> k in vals && chosen[k].Values() == vals[k]
    requires forall k :: k in KeysOf(cells) ==> k in chosen
    requires CellsShown(vals, cells)
    ensures ShowsCells(chosen, cells)
  {
    forall t | 0 <= t < |cells|
      ensures CellKey(cells[t]) in chosen
    {
      assert KeysOf(cells)[t] == CellKey(cells[t]);
    }
  }

  /** One more cell of `line` is placed. */
  lemma DoneStep(cells: seq<Cell>, line: seq<Cell>, j: nat)
    requires j < |line|
    ensures cells + line[..j] + [line[j]] == cells + line[..j + 1]
  {
    assert line[..j + 1] == line[..j] + [line[j]];
  }

  /** A key met again after `j` cells of `line` is a repeated key of the whole list. */
  lemma RepeatedAt(cells: seq<Cell>, line: seq<Cell>, j: nat)
    requires j < |line| && CellKey(line[j]) in KeysOf(cells + line[..j])
    ensures !Distinct(KeysOf(cells + line))
  {
    var all := cells + line;
    assert all[..|cells| + j] == cells + line[..j];
    MapPrefix(all, |cells| + j, CellKey);
    var i :| 0 <= i < |cells| + j && KeysOf(cells + line[..j])[i] == CellKey(line[j]);
    assert KeysOf(all)[i] == KeysOf(all)[|cells| + j];
  }

  /** The map of the placed keys gives no two keys the same row. */
  lemma ChosenInjective(rows: map<string, StatusRow>, before: seq<StatusRow>,
                        chosen: map<string, StatusRow>, shown: seq<StatusRow>, added: seq<string>)
    requires Keeps(rows, before)
    requires RowsPlaced(rows, before, chosen, shown, added)
    ensures Injective(chosen)
  {
    assert forall r :: r in before ==> r in shown[..|before|];
    forall a, b | a in chosen && b in chosen && a != b
      ensures chosen[a] != chosen[b]
    {
      if a !in rows && b !in rows {
        var ta :| 0 <= ta < |added| && added[ta] == a;
        var tb :| 0 <= tb < |added| && added[tb] == b;
        assert chosen[a] == shown[|before| + ta] && chosen[b] == shown[|before| + tb];
      }
    }
  }

  /** The appended rows belong to no key that went away. */
  lemma AppendedNotStale(rows: map<string, StatusRow>, before: seq<StatusRow>,
                         chosen: map<string, StatusRow>, shown: seq<StatusRow>, added: seq<string>)
    requires Keeps(rows, before)
    requires RowsPlaced(rows, before, chosen, shown, added)
    ensures FilterOut(shown, InRows(StaleRows(rows, chosen)))
            == FilterOut(before, InRows(StaleRows(rows, chosen))) + shown[|before|..]
  {
    var stale := InRows(StaleRows(rows, chosen));
    var appended := shown[|before|..];
    assert shown == before + appended by {
      assert shown[..|before|] == before;
    }
    FilterOutAppend(before, appended, stale);
    forall r | r in appended
      ensures !stale(r)
    {
      var t :| 0 <= t < |appended| && appended[t] == r;
      assert r == chosen[added[t]] && r == shown[|before| + t];
    }
    FilterOutAgree(appended, stale, (r: StatusRow) => false);
    FilterOutNothing(appended);
  }

  /** Every row of the new map survives the filtering. */
  lemma FilteredHoldsChosen(rows: map<string, StatusRow>, before: seq<StatusRow>,
                            chosen: map<string, StatusRow>, shown: seq<StatusRow>, added: seq<string>)
    requires Keeps(rows, before)
    requires RowsPlaced(rows, before, chosen, shown, added)
    ensures forall k :: k in chosen ==> chosen[k] in FilterOut(shown, InRows(StaleRows(rows, chosen)))
  {
    var stale := InRows(StaleRows(rows, chosen));
    FilterOutMembers(shown, stale);
    assert forall r :: r in before ==> r in shown[..|before|];
    forall k | k in chosen
      ensures chosen[k] in shown && !stale(chosen[k])
    {
      if k in rows {
        assert chosen[k] == rows[k] && rows[k] in before;
      } else {
        var t :| 0 <= t < |added| && added[t] == k;
        assert chosen[k] == shown[|before| + t];
      }
    }
  }

  /** Every row left after the filtering is a row of the new map. */
  lemma FilteredInChosen(rows: map<string, StatusRow>, before: seq<StatusRow>,
                         chosen: map<string, StatusRow>, shown: seq<StatusRow>, added: seq<string>)
    requires Shows(rows, before)
    requires RowsPlaced(rows, before, chosen, shown, added)
    ensures forall i :: 0 <= i < |FilterOut(shown, InRows(StaleRows(rows, chosen)))| ==>
              FilterOut(shown, InRows(StaleRows(rows, chosen)))[i] in chosen.Values
  {
    var stale := InRows(StaleRows(rows, chosen));
    var result := FilterOut(shown, stale);
    FilterOutAt(shown, stale);
    forall i | 0 <= i < |result|
      ensures result[i] in chosen.Values
    {
      var r := result[i];
      assert r in shown && !stale(r);
      var j :| 0 <= j < |shown| && shown[j] == r;
      if j < |before| {
        assert before[j] == r;
        var k :| k in rows && rows[k] == r;
        assert k in chosen;
      } else {
        assert r == chosen[added[j - |before|]];
      }
    }
  }

  /** After the stale rows are filtered out, the list shows exactly the new map's rows. */
  lemma FilteredShows(rows: map<string, StatusRow>, before: seq<StatusRow>,
                      chosen: map<string, StatusRow>, shown: seq<StatusRow>, added: seq<string>)
    requires Shows(rows, before)
    requires RowsPlaced(rows, before, chosen, shown, added)
    ensures Shows(chosen, FilterOut(shown, InRows(StaleRows(rows, chosen))))
  {
    var result := FilterOut(shown, InRows(StaleRows(rows, chosen)));
    ChosenInjective(rows, before, chosen, shown, added);
    FilterOutDistinct(shown, InRows(StaleRows(rows, chosen)));
    FilteredHoldsChosen(rows, before, chosen, shown, added);
    FilteredInChosen(rows, before, chosen, shown, added);
    assert forall i :: 0 <= i < |result| ==> result[i] in result;
  }

  /** The rows of `keys` in `m`, in order. */
  function Lookup(keys: seq<string>, m: map<string, StatusRow>): (r: seq<StatusRow>)
    requires forall k :: k in keys ==> k in m
    ensures |r| == |keys| && forall t :: 0 <= t < |keys| ==> r[t] == m[keys[t]]
  {
    seq(|keys|, t requires 0 <= t < |keys| => m[keys[t]])
  }

  /**
   * What `UpdateStates` leaves, from the old map `oldRows` and the old list
   * `oldShown`, for the cells of the states: the new map `rows` has exactly the
   * cells' keys, keeps the old row of each key that had one and gives each other
   * key a row the old list did not hold; the new list `shown` is the old one less
   * the rows of the keys that went away, then the rows of the new keys in the
   * order the loops met them.
   */
  ghost predicate Reconciled(oldRows: map<string, StatusRow>, oldShown: seq<StatusRow>,
                             rows: map<string, StatusRow>, shown: seq<StatusRow>, cells: seq<Cell>)
  {
    && (forall k :: k in rows <==> k in KeysOf(cells))
    && (forall k :: k in rows && k in oldRows ==> rows[k] == oldRows[k])
    && (forall k :: k in rows && k !in oldRows ==> rows[k] !in oldShown)
    && (forall k :: k in NewKeys(KeysOf(cells), oldRows) ==> k in rows)
    && shown == FilterOut(oldShown, InRows(StaleRows(oldRows, rows))) + Lookup(NewKeys(KeysOf(cells), oldRows), rows)
  }

  /** The filtered list: the kept old rows, then the appended rows, which are those of `added`. */
  lemma FilteredList(rows: map<string, StatusRow>, before: seq<StatusRow>,
                     chosen: map<string, StatusRow>, shown: seq<StatusRow>, added: seq<string>)
    requires Shows(rows, before)
    requires RowsPlaced(rows, before, chosen, shown, added)
    ensures forall k :: k in added ==> k in chosen
    ensures FilterOut(shown, InRows(StaleRows(rows, chosen)))
            == FilterOut(before, InRows(StaleRows(rows, chosen))) + Lookup(added, chosen)
  {
    AppendedNotStale(rows, before, chosen, shown, added);
    var appended := shown[|before|..];
    assert forall k :: k in added ==> k in chosen;
    forall t | 0 <= t < |added|
      ensures appended[t] == Lookup(added, chosen)[t]
    {
      assert appended[t] == shown[|before| + t];
    }
    assert appended == Lookup(added, chosen);
  }

  /** Once every cell is placed, filtering out the stale rows leaves what `Reconciled` describes. */
  lemma Reconciles(rows: map<string, StatusRow>, before: seq<StatusRow>, cells: seq<Cell>,
                   chosen: map<string, StatusRow>, shown: seq<StatusRow>, added: seq<string>)
    requires Shows(rows, before)
    requires Placed(rows, before, cells, chosen, shown, added)
    ensures Reconciled(rows, before, chosen, FilterOut(shown, InRows(StaleRows(rows, chosen))), cells)
  {
    FilteredList(rows, before, chosen, shown, added);
    assert forall r :: r in before ==> r in shown[..|before|];
  }

  /** The loops' result, once the stale rows are filtered out, is what `Reconciled` and `Shows` describe. */
  lemma PlannedReconciles(rows: map<string, StatusRow>, before: seq<StatusRow>, cells: seq<Cell>,
                          chosen: map<string, StatusRow>, shown: seq<StatusRow>, appended: seq<StatusRow>)
    requires Shows(rows, before)
    requires Planned(rows, before, cells, chosen, shown, appended)
    ensures forall k :: k in KeysOf(cells) ==> k in chosen
    ensures Reconciled(rows, before, chosen, FilterOut(shown, InRows(StaleRows(rows, chosen))), cells)
    ensures Shows(chosen, FilterOut(shown, InRows(StaleRows(rows, chosen))))
  {
    PlannedPlaced(rows, before, cells, chosen, shown, appended);
    var added := NewKeys(KeysOf(cells), rows);
    Reconciles(rows, before, cells, chosen, shown, added);
    FilteredShows(rows, before, chosen, shown, added);
  }

  /** Rows that display `vals` show the cells the loops placed. */
  lemma PlannedShowsCells(rows: map<string, StatusRow>, before: seq<StatusRow>, cells: seq<Cell>,
                          chosen: map<string, StatusRow>, shown: seq<StatusRow>, appended: seq<StatusRow>,
                          vals: map<string, StatusValues>)
    requires Planned(rows, before, cells, chosen, shown, appended)
    requires forall k :: k in chosen ==> k in vals && chosen[k].Values() == vals[k]
    requires CellsShown(vals, cells)
    ensures ShowsCells(chosen, cells)
  {
    AssignedKeys(rows, KeysOf(cells), appended);
    ShowsCellsFrom(chosen, vals, cells);
  }
}
