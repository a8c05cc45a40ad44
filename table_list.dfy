/**
 * The start screen (main.go:231-277): the table returned by ListTables is
 * drawn as rows of cells, and Enter on a row opens the action page for the
 * table drawn there. The global `tables` slice is only replaced by a
 * successful, non-empty listing.
 */
module TableListScreen {
  import opened Wrappers
  import opened GoText
  import opened Formatting
  import opened TableCatalog

  const HeaderRow: seq<string> := ["Table Name", "Status", "Item Count", "Size"]

  /** One table's cells: name, status, item count with thousands separators, size with its unit. */
  function TableRow(t: TableInfo, fixed2: (int, nat) -> string): seq<string>
  {
    [t.name, t.status, CommaGrouped(FormatInt(t.itemCount)), FormatBytes(t.sizeBytes, fixed2)]
  }

  /** Every row of the screen, the header included, for a listing outcome. */
  function ListRows(listed: Result<seq<TableInfo>, BackendError>, fixed2: (int, nat) -> string): (rows: seq<seq<string>>)
    ensures |rows| >= 2 && rows[0] == HeaderRow
    ensures listed.Success? && |listed.value| > 0 ==> |rows| == |listed.value| + 1
    ensures listed.Failure? || |listed.value| == 0 ==> |rows| == 2 && |rows[1]| == 1
    ensures listed.Failure? ==> rows[1] == ["Error: " + listed.error.message]
    ensures listed.Success? && |listed.value| == 0 ==> rows[1] == ["No tables found."]
    ensures listed.Success? && |listed.value| > 0 ==>
      forall i :: 0 < i < |rows| ==> rows[i] == TableRow(listed.value[i - 1], fixed2)
  {
    var body: seq<seq<string>> :=
      if listed.Failure? then [["Error: " + listed.error.message]]
      else if |listed.value| == 0 then [["No tables found."]]
      else seq(|listed.value|, i requires 0 <= i < |listed.value| => TableRow(listed.value[i], fixed2));
    assert |body| >= 1;
    [HeaderRow] + body
  }

  /** Enter on row `row` (row 0 is the header) selects a table only when a table is drawn there. */
  function SelectTable(tables: seq<TableInfo>, row: int): (r: Option<TableInfo>)
    ensures r.Some? <==> 0 < row <= |tables|
    ensures r.Some? ==> r.value == tables[row - 1]
  {
    if row > 0 && row <= |tables| then Some(tables[row - 1]) else None
  }

  class TableList {
    var tables: seq<TableInfo>
    var rows: seq<seq<string>>

    /** The loading screen: nothing listed yet. */
    constructor()
      ensures tables == [] && rows == []
    {
      tables, rows := [], [];
    }

    /** The update queued once ListTables returns. */
    method Load(listed: Result<seq<TableInfo>, BackendError>, fixed2: (int, nat) -> string)
      modifies this
      ensures rows == ListRows(listed, fixed2)
      ensures tables == if listed.Success? && |listed.value| > 0 then listed.value else old(tables)
    {
      rows := [HeaderRow];
      if listed.Failure? {
        rows := rows + [["Error: " + listed.error.message]];
      } else if |listed.value| == 0 {
        rows := rows + [["No tables found."]];
      } else {
        var tableInfos := listed.value;
        var drawn := [HeaderRow];
        for i := 0 to |tableInfos|
          invariant drawn == [HeaderRow] + seq(i, j requires 0 <= j < i => TableRow(tableInfos[j], fixed2))
        {
          var t := tableInfos[i];
          var count := FormatWithCommas(t.itemCount);
          drawn := drawn + [[t.name, t.status, count, FormatBytes(t.sizeBytes, fixed2)]];
        }
        tables, rows := tableInfos, drawn;
      }
    }

    /** Enter on the table list. */
    method Enter(row: int) returns (selected: Option<TableInfo>)
      ensures selected == SelectTable(tables, row)
    {
      selected := None;
      if row > 0 && row <= |tables| {
        selected := Some(tables[row - 1]);
      }
    }
  }

  /** A table's row shows its name and status, and its item count's own digits once the commas are removed. */
  lemma TableRowCells(t: TableInfo, fixed2: (int, nat) -> string)
    ensures var cells := TableRow(t, fixed2);
      && |cells| == 4 && cells[0] == t.name && cells[1] == t.status
      && (t.itemCount >= 0 ==> RemoveCommas(cells[2]) == Decimal(t.itemCount))
  {
    if t.itemCount >= 0 {
      NonNegativeCountGrouping(t.itemCount);
    }
  }

  /**
   * After a non-empty listing, Enter on a row with a table selects exactly
   * the table drawn on that row; the header and the rows below the last
   * table select nothing.
   */
  lemma SelectionMatchesDrawnRow(listed: Result<seq<TableInfo>, BackendError>, fixed2: (int, nat) -> string, row: int)
    requires listed.Success? && |listed.value| > 0
    ensures var s := SelectTable(listed.value, row);
      var rows := ListRows(listed, fixed2);
      && (s.Some? <==> 0 < row < |rows|)
      && (s.Some? ==> rows[row] == TableRow(s.value, fixed2))
  {
  }

  /** A failed or empty first listing leaves nothing selectable. */
  lemma NothingSelectableWithoutTables(row: int)
    ensures SelectTable([], row) == None
  {
  }
}
