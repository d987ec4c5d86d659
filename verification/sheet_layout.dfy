/** Where the workbook generator's rows land. A section is a title, a
    header row and data rows; sections are stacked from a starting row with
    two blank rows after each. Writing rows into a sheet is modelled as
    updating a map from (row, column) to value, so "sections never overlap"
    becomes "no later write clobbers an earlier cell". */
module SheetLayout {
  import Values
  import Seqs

  type Value = Values.Value

  /** What a sheet row holds. */
  datatype RowKind = ReportTitle | Generated | SectionHeading | ColumnHeader | DataRow

  /** One sheet row: its 1-based row number and the values written to
      columns 1, 2, ... in order. */
  datatype SheetRow = SheetRow(index: nat, kind: RowKind, cells: seq<Value>)

  /** The content of one report section, before it is placed on the sheet. */
  datatype Section = Section(title: string, header: seq<Value>, records: seq<seq<Value>>)

  /** No two rows share a row number, and rows are written top to bottom. */
  predicate Increasing(rows: seq<SheetRow>) {
    forall a, b :: 0 <= a < b < |rows| ==> rows[a].index < rows[b].index
  }

  /** Two runs written top to bottom, the first wholly above the second,
      form one run written top to bottom. */
  lemma IncreasingAppend(a: seq<SheetRow>, b: seq<SheetRow>, boundary: int)
    requires Increasing(a) && Increasing(b)
    requires forall k :: 0 <= k < |a| ==> a[k].index < boundary
    requires forall k :: 0 <= k < |b| ==> boundary <= b[k].index
    ensures Increasing(a + b)
  {
    var ab := a + b;
    forall x, y | 0 <= x < y < |ab| ensures ab[x].index < ab[y].index {
      if y < |a| {
        assert ab[x] == a[x] && ab[y] == a[y];
      } else if x >= |a| {
        assert ab[x] == b[x - |a|] && ab[y] == b[y - |a|];
      } else {
        assert ab[x] == a[x] && ab[y] == b[y - |a|];
      }
    }
  }

  /** One data row per record, the first at row `start`. */
  function DataRows(records: seq<seq<Value>>, start: nat): (rows: seq<SheetRow>)
    ensures |rows| == |records|
    decreases |records|
  {
    if |records| == 0 then []
    else [SheetRow(start, DataRow, records[0])] + DataRows(records[1..], start + 1)
  }

  /** Record `i` is on row `start + i`. */
  lemma {:induction false} DataRowsAt(records: seq<seq<Value>>, start: nat, i: nat)
    requires i < |records|
    ensures DataRows(records, start)[i] == SheetRow(start + i, DataRow, records[i])
  {
    if i > 0 {
      DataRowsAt(records[1..], start + 1, i - 1);
    }
  }

  /** Appending a record appends one data row, one row further down. */
  lemma DataRowsSnoc(records: seq<seq<Value>>, cells: seq<Value>, start: nat)
    ensures DataRows(records + [cells], start)
         == DataRows(records, start) + [SheetRow(start + |records|, DataRow, cells)]
  {
    var lhs := DataRows(records + [cells], start);
    var rhs := DataRows(records, start) + [SheetRow(start + |records|, DataRow, cells)];
    assert |lhs| == |rhs|;
    forall i | 0 <= i < |lhs| ensures lhs[i] == rhs[i] {
      DataRowsAt(records + [cells], start, i);
      if i < |records| {
        DataRowsAt(records, start, i);
        assert (records + [cells])[i] == records[i];
      }
    }
  }

  /** The data rows of one more record of `records`. */
  lemma DataRowsPrefixStep(records: seq<seq<Value>>, j: nat, start: nat)
    requires j < |records|
    ensures DataRows(records[..j + 1], start)
         == DataRows(records[..j], start) + [SheetRow(start + j, DataRow, records[j])]
  {
    assert records[..j + 1] == records[..j] + [records[j]];
    DataRowsSnoc(records[..j], records[j], start);
  }

  /** The record loop of the workbook generator: one row per record,
      written one below the other from `start`. */
  method WriteDataRows(rows: seq<SheetRow>, records: seq<seq<Value>>, start: nat)
    returns (written: seq<SheetRow>, nextRow: nat)
    ensures written == rows + DataRows(records, start)
    ensures nextRow == start + |records|
  {
    written := rows;
    nextRow := start;
    var j := 0;
    while j < |records|
      invariant 0 <= j <= |records|
      invariant nextRow == start + j
      invariant written == rows + DataRows(records[..j], start)
    {
      var row := SheetRow(nextRow, DataRow, records[j]);
      DataRowsPrefixStep(records, j, start);
      Seqs.AppendAssoc(rows, DataRows(records[..j], start), [row]);
      written := written + [row];
      nextRow := nextRow + 1;
      j := j + 1;
    }
    assert records[..j] == records;
  }

  /** A section placed at row `start`: its title on `start`, its header on
      `start + 1`, its records from `start + 2` on. */
  function SectionRows(s: Section, start: nat): (rows: seq<SheetRow>)
    ensures |rows| == |s.records| + 2
  {
    [SheetRow(start, SectionHeading, [Values.Str(s.title)]),
     SheetRow(start + 1, ColumnHeader, s.header)]
    + DataRows(s.records, start + 2)
  }

  /** Row `j` of a section placed at `start` is on row `start + j`: the
      title first, the header next, then record `j - 2`. */
  lemma SectionRowsAt(s: Section, start: nat, j: nat)
    requires j < |s.records| + 2
    ensures SectionRows(s, start)[j].index == start + j
    ensures j == 0 ==> SectionRows(s, start)[j].cells == [Values.Str(s.title)]
    ensures j == 1 ==> SectionRows(s, start)[j].cells == s.header
    ensures j >= 2 ==> SectionRows(s, start)[j] == SheetRow(start + j, DataRow, s.records[j - 2])
  {
    if j >= 2 {
      DataRowsAt(s.records, start + 2, j - 2);
    }
  }

  /** Rows a section moves the cursor by: title, header, one per record and
      two blank rows. */
  function Advance(s: Section): nat {
    |s.records| + 4
  }

  /** Rows a run of sections moves the cursor by. */
  function Span(sections: seq<Section>): nat {
    if |sections| == 0 then 0 else Advance(sections[0]) + Span(sections[1..])
  }

  /** The sections stacked from row `start`, each `Advance` rows below the
      previous. */
  function Place(sections: seq<Section>, start: nat): seq<SheetRow>
    decreases |sections|
  {
    if |sections| == 0 then []
    else SectionRows(sections[0], start) + Place(sections[1..], start + Advance(sections[0]))
  }

  /** Every stacked row lands inside the band the sections span, and rows
      go strictly downwards, so no two rows share a row number. */
  lemma {:induction false} PlaceWithinBand(sections: seq<Section>, start: nat)
    ensures forall k :: 0 <= k < |Place(sections, start)| ==>
      start <= Place(sections, start)[k].index < start + Span(sections)
    ensures Increasing(Place(sections, start))
    decreases |sections|
  {
    if |sections| > 0 {
      var s := sections[0];
      var next := start + Advance(s);
      var here := SectionRows(s, start);
      var rest := Place(sections[1..], next);
      PlaceWithinBand(sections[1..], next);
      forall j | 0 <= j < |here| ensures here[j].index == start + j {
        SectionRowsAt(s, start, j);
      }
      IncreasingAppend(here, rest, next);
      var all := here + rest;
      forall k | 0 <= k < |all| ensures start <= all[k].index < start + Span(sections) {
        if k >= |here| {
          assert all[k] == rest[k - |here|];
        }
      }
    }
  }

  /** The stacked rows fill the span the sections move the cursor by,
      except for the two blank rows after each section. */
  lemma {:induction false} PlaceRowCount(sections: seq<Section>, start: nat)
    ensures |Place(sections, start)| + 2 * |sections| == Span(sections)
    decreases |sections|
  {
    if |sections| > 0 {
      PlaceRowCount(sections[1..], start + Advance(sections[0]));
    }
  }

  /** Placing one section, then the rest from the advanced cursor. */
  lemma PlaceCons(s: Section, rest: seq<Section>, start: nat, next: nat)
    requires next == start + Advance(s)
    ensures Place([s] + rest, start) == SectionRows(s, start) + Place(rest, next)
  {
    assert ([s] + rest)[0] == s && ([s] + rest)[1..] == rest;
  }

  /** Spans add up. */
  lemma {:induction false} SpanAppend(a: seq<Section>, b: seq<Section>)
    ensures Span(a + b) == Span(a) + Span(b)
    decreases |a|
  {
    if |a| > 0 {
      assert (a + b)[0] == a[0] && (a + b)[1..] == a[1..] + b;
      SpanAppend(a[1..], b);
    } else {
      assert a + b == b;
    }
  }

  /** Stacking `a` then `b` is stacking `a`, then `b` from where `a` left
      the cursor: a section's start row is fixed by the sections before it. */
  lemma {:induction false} PlaceAppend(a: seq<Section>, b: seq<Section>, start: nat)
    ensures Place(a + b, start) == Place(a, start) + Place(b, start + Span(a))
    decreases |a|
  {
    if |a| == 0 {
      assert a + b == b;
    } else {
      var s := a[0];
      var tail := a[1..];
      var next := start + Advance(s);
      assert a + b == [s] + (tail + b);
      assert a == [s] + tail;
      PlaceAppend(tail, b, next);
      PlaceCons(s, tail + b, start, next);
      PlaceCons(s, tail, start, next);
      assert Span(a) == Advance(s) + Span(tail);
      Seqs.AppendAssoc(SectionRows(s, start), Place(tail, next), Place(b, next + Span(tail)));
    }
  }

  /** The `k`-th section of a stack starts at `start` plus the span of the
      sections before it, and the next one starts `Advance` rows later. */
  lemma {:induction false} SectionStart(sections: seq<Section>, k: nat, start: nat)
    requires k < |sections|
    ensures Place(sections, start)
         == Place(sections[..k], start)
            + SectionRows(sections[k], start + Span(sections[..k]))
            + Place(sections[k + 1..], start + Span(sections[..k + 1]))
    ensures Span(sections[..k + 1]) == Span(sections[..k]) + Advance(sections[k])
  {
    var before := sections[..k];
    var after := sections[k + 1..];
    assert sections == before + ([sections[k]] + after);
    assert sections[..k + 1] == before + [sections[k]];
    PlaceAppend(before, [sections[k]] + after, start);
    SpanAppend(before, [sections[k]]);
    var at := start + Span(before);
    PlaceCons(sections[k], after, at, at + Advance(sections[k]));
    assert Span([sections[k]]) == Advance(sections[k]);
    Seqs.AppendAssoc(Place(before, start), SectionRows(sections[k], at),
                Place(after, at + Advance(sections[k])));
  }

  /** A sheet: the value written to each (row, column) cell. */
  type Sheet = map<(nat, nat), Value>

  /** Writing one row: its cells go to columns 1, 2, ... of its row
      (`enumerate(row, start=1)`), replacing whatever was there. */
  function WriteRow(sheet: Sheet, row: SheetRow): Sheet {
    sheet + RowCells(row)
  }

  /** The cells one row writes, keyed by (row, 1-based column). */
  function RowCells(row: SheetRow): map<(nat, nat), Value> {
    map col: nat | 1 <= col <= |row.cells| :: (row.index, col) := row.cells[col - 1]
  }

  /** Writing a row sets its cells, leaves every other row's cells as they
      were, and creates no cell beyond the row's own columns. */
  lemma WriteRowEffect(sheet: Sheet, row: SheetRow)
    ensures forall c :: 0 <= c < |row.cells| ==>
      (row.index, c + 1) in WriteRow(sheet, row) && WriteRow(sheet, row)[(row.index, c + 1)] == row.cells[c]
    ensures forall key :: key in sheet && key.0 != row.index ==>
      key in WriteRow(sheet, row) && WriteRow(sheet, row)[key] == sheet[key]
    ensures forall key :: key in WriteRow(sheet, row) <==>
      key in sheet || (key.0 == row.index && 1 <= key.1 <= |row.cells|)
  {
    var written := RowCells(row);
    forall key ensures key in sheet + written <==> key in sheet || (key.0 == row.index && 1 <= key.1 <= |row.cells|) {
      if key.0 == row.index && 1 <= key.1 <= |row.cells| {
        assert key == (row.index, key.1);
      }
    }
    forall c | 0 <= c < |row.cells|
      ensures (row.index, c + 1) in sheet + written && (sheet + written)[(row.index, c + 1)] == row.cells[c]
    {
      var col: nat := c + 1;
      assert 1 <= col <= |row.cells|;
      assert (row.index, col) in written;
    }
    forall key | key in sheet && key.0 != row.index
      ensures key in sheet + written && (sheet + written)[key] == sheet[key]
    {
      assert key !in written;
    }
  }

  /** Writing rows in order into an empty sheet. */
  function Render(rows: seq<SheetRow>): Sheet
    decreases |rows|
  {
    if |rows| == 0 then map[] else WriteRow(Render(rows[..|rows| - 1]), rows[|rows| - 1])
  }

  /** When rows go strictly downwards, no row overwrites another: every
      cell of every row is still on the finished sheet. */
  lemma {:induction false} RenderKeepsEveryCell(rows: seq<SheetRow>, k: nat, c: nat, r: nat, col: nat)
    requires Increasing(rows)
    requires k < |rows| && c < |rows[k].cells| && r == rows[k].index && col == c + 1
    ensures (r, col) in Render(rows)
    ensures Render(rows)[(r, col)] == rows[k].cells[c]
    decreases |rows|
  {
    var n := |rows| - 1;
    WriteRowEffect(Render(rows[..n]), rows[n]);
    if k < n {
      var front := rows[..n];
      assert front[k] == rows[k];
      assert Increasing(front);
      RenderKeepsEveryCell(front, k, c, r, col);
      assert rows[k].index < rows[n].index;
    }
  }

  /** A rendered sheet holds exactly the cells its rows write: cell
      `(r, col)` is set if and only if some row on row `r` has at least `col`
      cells. */
  lemma {:induction false} RenderDomain(rows: seq<SheetRow>, key: (nat, nat))
    ensures key in Render(rows) <==>
      exists j :: 0 <= j < |rows| && rows[j].index == key.0 && 1 <= key.1 <= |rows[j].cells|
    decreases |rows|
  {
    if |rows| > 0 {
      var n := |rows| - 1;
      var front := rows[..n];
      RenderDomain(front, key);
      WriteRowEffect(Render(front), rows[n]);
      if key in Render(front) {
        var j :| 0 <= j < |front| && front[j].index == key.0 && 1 <= key.1 <= |front[j].cells|;
        assert rows[j] == front[j];
      }
      if exists j :: 0 <= j < |rows| && rows[j].index == key.0 && 1 <= key.1 <= |rows[j].cells| {
        var j :| 0 <= j < |rows| && rows[j].index == key.0 && 1 <= key.1 <= |rows[j].cells|;
        if j < n {
          assert front[j] == rows[j];
        }
      }
    }
  }

  /** When rows go strictly downwards, a column past the end of a row is
      never set on that row: no other write reaches it. */
  lemma RenderCellAbsent(rows: seq<SheetRow>, k: nat, r: nat, col: nat)
    requires Increasing(rows)
    requires k < |rows| && r == rows[k].index && |rows[k].cells| < col
    ensures (r, col) !in Render(rows)
  {
    RenderDomain(rows, (r, col));
    forall j | 0 <= j < |rows| && rows[j].index == r ensures j == k {
    }
  }

  /** Row `j` of the `k`-th section, which starts on row `at`, sits after
      any `prefix` at a fixed position of the stacked rows. */
  lemma PlacedRow(prefix: seq<SheetRow>, sections: seq<Section>, start: nat, k: nat, j: nat, at: nat)
    requires k < |sections| && j < |sections[k].records| + 2
    requires at == start + Span(sections[..k])
    ensures |prefix| + |Place(sections[..k], start)| + j < |prefix + Place(sections, start)|
    ensures (prefix + Place(sections, start))[|prefix| + |Place(sections[..k], start)| + j]
         == SectionRows(sections[k], at)[j]
  {
    SectionStart(sections, k, start);
    var a := Place(sections[..k], start);
    var b := SectionRows(sections[k], at);
    var c := Place(sections[k + 1..], start + Span(sections[..k + 1]));
    Seqs.AppendAssoc(prefix, a + b, c);
    Seqs.AppendAssoc(prefix, a, b);
    assert (prefix + a + b)[|prefix| + |a| + j] == b[j];
  }

  /** Every cell of every placed section row is on the rendered sheet: cell
      `c` of row `j` of the `k`-th section, which starts on row `at`, is in
      row `r == at + j`, column `col == c + 1`. */
  lemma SectionCellOnSheet(prefix: seq<SheetRow>, sections: seq<Section>, start: nat,
                           k: nat, j: nat, c: nat, at: nat, r: nat, col: nat)
    requires Increasing(prefix + Place(sections, start))
    requires k < |sections| && j < |sections[k].records| + 2
    requires at == start + Span(sections[..k])
    requires c < |SectionRows(sections[k], at)[j].cells|
    requires r == at + j && col == c + 1
    ensures (r, col) in Render(prefix + Place(sections, start))
    ensures Render(prefix + Place(sections, start))[(r, col)] == SectionRows(sections[k], at)[j].cells[c]
  {
    PlacedRow(prefix, sections, start, k, j, at);
    SectionRowsAt(sections[k], at, j);
    RenderKeepsEveryCell(prefix + Place(sections, start), |prefix| + |Place(sections[..k], start)| + j, c, r, col);
  }

  /** A column past the end of a placed section row stays empty on the
      rendered sheet. */
  lemma SectionCellOffSheet(prefix: seq<SheetRow>, sections: seq<Section>, start: nat,
                            k: nat, j: nat, at: nat, r: nat, col: nat)
    requires Increasing(prefix + Place(sections, start))
    requires k < |sections| && j < |sections[k].records| + 2
    requires at == start + Span(sections[..k])
    requires |SectionRows(sections[k], at)[j].cells| < col
    requires r == at + j
    ensures (r, col) !in Render(prefix + Place(sections, start))
  {
    PlacedRow(prefix, sections, start, k, j, at);
    SectionRowsAt(sections[k], at, j);
    RenderCellAbsent(prefix + Place(sections, start), |prefix| + |Place(sections[..k], start)| + j, r, col);
  }
}
