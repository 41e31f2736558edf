/** The main window's grid state, updated in place on each poll. */
module MainWindows {

  import opened PeerGroupStates
  import opened LocationStates
  import opened Sequences
  import opened StateManagers
  import opened StatusRows
  import opened StatusGrids

  class MainWindow {

    /** The rows the grid shows, in order. */
    var statusRows: seq<StatusRow>

    /** The row of each key. */
    var rowMap: map<string, StatusRow>

    predicate Valid()
      reads this
    {
      Shows(rowMap, statusRows)
    }

    /** The window starts with an empty grid and an empty map. */
    constructor ()
      ensures Valid() && statusRows == [] && rowMap == map[]
    {
      statusRows := [];
      rowMap := map[];
    }

    /**
     * `UpdateStates(states)`: reuses (and updates) the row of each key that had
     * one, appends a new row for each key that had none, then removes the rows
     * of the keys that did not come back. A key met twice makes `Add` throw
     * (`ok` false) before the map is replaced.
     */
    method UpdateStates(states: seq<Published>) returns (ok: bool)
      requires Valid()
      modifies this, rowMap.Values
      ensures ok <==> Distinct(KeysOf(Cells(states)))
      ensures !ok ==> rowMap == old(rowMap)
      ensures ok ==> Valid() && Reconciled(old(rowMap), old(statusRows), rowMap, statusRows, Cells(states))
      ensures ok ==> ShowsCells(rowMap, Cells(states))
    {
      ghost var before := statusRows;
      var newRowMap;
      ghost var appended, vals;
      newRowMap, appended, vals, ok := PlaceAll(states, before);
      if ok {
        PlannedShowsCells(rowMap, before, Cells(states), newRowMap, statusRows, appended, vals);
        Commit(newRowMap, before, Cells(states), appended);
      }
    }

    /** The two loops of `UpdateStates`: every cell gets its row, until a key comes back twice. */
    method PlaceAll(states: seq<Published>, ghost before: seq<StatusRow>)
      returns (newRowMap: map<string, StatusRow>, ghost appended: seq<StatusRow>, ghost vals: map<string, StatusValues>, ok: bool)
      requires Shows(rowMap, before) && statusRows == before
      modifies this, rowMap.Values
      ensures rowMap == old(rowMap)
      ensures ok <==> Distinct(KeysOf(Cells(states)))
      ensures ok ==> Planned(rowMap, before, Cells(states), newRowMap, statusRows, appended)
      ensures ok ==> CellsShown(vals, Cells(states))
      ensures ok ==> forall k :: k in newRowMap ==> k in vals && newRowMap[k].Values() == vals[k]
    {
      newRowMap, appended, vals := map[], [], map[];
      ghost var done: seq<Cell> := [];
      PlannedInitially(rowMap, before);
      var i := 0;
      while i < |states|
        invariant 0 <= i <= |states|
        invariant rowMap == old(rowMap) && Keeps(rowMap, before)
        invariant done == Cells(states[..i])
        invariant Planned(rowMap, before, done, newRowMap, statusRows, appended)
        invariant CellsShown(vals, done)
        invariant forall k :: k in newRowMap ==> k in vals && newRowMap[k].Values() == vals[k]
      {
        var placed;
        newRowMap, appended, vals, placed := PlaceRows(states[i], before, done, newRowMap, appended, vals);
        if !placed {
          RepeatedInStates(states, i);
          return newRowMap, appended, vals, false;
        }
        CellsStep(states, i);
        done := done + CellsOf(states[i]);
        i := i + 1;
      }
      assert states[..i] == states;
      ok := true;
    }

    /** The end of `UpdateStates`: the stale rows leave the list and the new map replaces the old one. */
    method Commit(newRowMap: map<string, StatusRow>, ghost before: seq<StatusRow>, ghost cells: seq<Cell>,
                  ghost appended: seq<StatusRow>)
      requires Shows(rowMap, before)
      requires Planned(rowMap, before, cells, newRowMap, statusRows, appended)
      requires ShowsCells(newRowMap, cells)
      modifies this
      ensures Valid() && Reconciled(old(rowMap), before, rowMap, statusRows, cells)
      ensures ShowsCells(rowMap, cells)
    {
      PlannedReconciles(rowMap, before, cells, newRowMap, statusRows, appended);
      RemoveStaleRows(newRowMap);
      rowMap := newRowMap;
    }

    /** The inner loop over one entry's locations. */
    method PlaceRows(pair: Published, ghost before: seq<StatusRow>, ghost cells: seq<Cell>,
                     newRowMap: map<string, StatusRow>, ghost appended: seq<StatusRow>, ghost vals: map<string, StatusValues>)
      returns (newRowMap2: map<string, StatusRow>, ghost appended2: seq<StatusRow>, ghost vals2: map<string, StatusValues>, ok: bool)
      requires Keeps(rowMap, before)
      requires Planned(rowMap, before, cells, newRowMap, statusRows, appended)
      requires CellsShown(vals, cells)
      requires forall k :: k in newRowMap ==> k in vals && newRowMap[k].Values() == vals[k]
      modifies this, rowMap.Values
      ensures rowMap == old(rowMap)
      ensures ok ==> Planned(rowMap, before, cells + CellsOf(pair), newRowMap2, statusRows, appended2)
      ensures ok ==> CellsShown(vals2, cells + CellsOf(pair))
      ensures ok ==> forall k :: k in newRowMap2 ==> k in vals2 && newRowMap2[k].Values() == vals2[k]
      ensures !ok ==> !Distinct(KeysOf(cells + CellsOf(pair)))
    {
      newRowMap2, appended2, vals2 := newRowMap, appended, vals;
      var line := CellsOf(pair);
      ghost var done := cells;
      var j := 0;
      while j < |pair.locations|
        invariant 0 <= j <= |pair.locations|
        invariant rowMap == old(rowMap) && Keeps(rowMap, before)
        invariant done == cells + line[..j]
        invariant Planned(rowMap, before, done, newRowMap2, statusRows, appended2)
        invariant CellsShown(vals2, done)
        invariant forall k :: k in newRowMap2 ==> k in vals2 && newRowMap2[k].Values() == vals2[k]
      {
        var placed;
        newRowMap2, appended2, vals2, placed := PlaceRow(line[j], before, done, newRowMap2, appended2, vals2);
        if !placed {
          RepeatedAt(cells, line, j);
          return newRowMap2, appended2, vals2, false;
        }
        DoneStep(cells, line, j);
        done := done + [line[j]];
        j := j + 1;
      }
      assert line[..j] == line;
      ok := true;
    }

    /** One location: the row of its key is reused or appended, then the key is added to the new map. */
    method PlaceRow(c: Cell, ghost before: seq<StatusRow>, ghost cells: seq<Cell>,
                    newRowMap: map<string, StatusRow>, ghost appended: seq<StatusRow>, ghost vals: map<string, StatusValues>)
      returns (newRowMap2: map<string, StatusRow>, ghost appended2: seq<StatusRow>, ghost vals2: map<string, StatusValues>, ok: bool)
      requires Keeps(rowMap, before)
      requires Planned(rowMap, before, cells, newRowMap, statusRows, appended)
      requires CellsShown(vals, cells)
      requires forall k :: k in newRowMap ==> k in vals && newRowMap[k].Values() == vals[k]
      modifies this, rowMap.Values
      ensures rowMap == old(rowMap)
      ensures ok <==> CellKey(c) !in KeysOf(cells)
      ensures ok ==> Planned(rowMap, before, cells + [c], newRowMap2, statusRows, appended2)
      ensures ok ==> CellsShown(vals2, cells + [c])
      ensures ok ==> forall k :: k in newRowMap2 ==> k in vals2 && newRowMap2[k].Values() == vals2[k]
    {
      var key := CellKey(c);
      ghost var shown := statusRows;
      PlannedKey(rowMap, before, cells, newRowMap, shown, appended, key);
      var row: StatusRow;
      if key in rowMap {
        row := rowMap[key];
        if key !in newRowMap {
          RowIsNew(rowMap, before, cells, newRowMap, shown, appended, key, row);
        }
        ShowRow(row, c, newRowMap, vals);
      } else {
        row := AppendRow(c, newRowMap, vals);
      }
      if key in newRowMap {
        return newRowMap, appended, vals, false;
      }
      CellsShownStep(vals, cells, c);
      PlannedStep(rowMap, before, cells, newRowMap, shown, appended, c, row, statusRows);
      newRowMap2 := newRowMap[key := row];
      appended2 := if key in rowMap then appended else appended + [row];
      vals2 := vals[key := Shown(c.group, c.location)];
      ok := true;
    }

    /**
     * A key without a row: a new row shows the cell and is appended to the
     * list; no row of the map is touched.
     */
    method AppendRow(c: Cell, ghost chosen: map<string, StatusRow>, ghost vals: map<string, StatusValues>)
      returns (row: StatusRow)
      requires forall k :: k in chosen ==> k in vals && chosen[k].Values() == vals[k]
      modifies this
      ensures fresh(row) && rowMap == old(rowMap) && statusRows == old(statusRows) + [row]
      ensures var chosen2 := chosen[CellKey(c) := row];
              var vals2 := vals[CellKey(c) := Shown(c.group, c.location)];
              forall k :: k in chosen2 ==> k in vals2 && chosen2[k].Values() == vals2[k]
    {
      row := new StatusRow();
      row.Update(c.group, c.location);
      statusRows := statusRows + [row];
    }

    /** `row.Update(...)`: only `row` changes, so the rows of the other keys still display the same values. */
    method ShowRow(row: StatusRow, c: Cell, ghost chosen: map<string, StatusRow>, ghost vals: map<string, StatusValues>)
      modifies row
      ensures row.Values() == Shown(c.group, c.location)
      ensures row !in chosen.Values && old(forall k :: k in chosen ==> k in vals && chosen[k].Values() == vals[k]) ==>
                var chosen2 := chosen[CellKey(c) := row];
                var vals2 := vals[CellKey(c) := Shown(c.group, c.location)];
                forall k :: k in chosen2 ==> k in vals2 && chosen2[k].Values() == vals2[k]
    {
      row.Update(c.group, c.location);
    }

    /** `statusRows.Remove(pair.Value)` for each key of the old map the new map lacks. */
    method RemoveStaleRows(kept: map<string, StatusRow>)
      requires Distinct(statusRows)
      modifies this
      ensures statusRows == FilterOut(old(statusRows), InRows(StaleRows(rowMap, kept)))
      ensures rowMap == old(rowMap)
    {
      ghost var shown := statusRows;
      var stale := StaleRows(rowMap, kept);
      ghost var done: set<StatusRow> := {};
      FilterOutAgree(shown, InRows(done), (r: StatusRow) => false);
      FilterOutNothing(shown);
      while stale != {}
        invariant rowMap == old(rowMap)
        invariant stale + done == StaleRows(rowMap, kept) && stale !! done
        invariant statusRows == FilterOut(shown, InRows(done))
        decreases stale
      {
        var r :| r in stale;
        RemoveFirstOfFiltered(shown, InRows(done), r);
        FilterOutAgree(shown, OrIs(InRows(done), r), InRows(done + {r}));
        statusRows := RemoveFirst(statusRows, r);
        stale := stale - {r};
        done := done + {r};
      }
    }
  }
}
