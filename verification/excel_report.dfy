/** The workbook generator's shaping layer: per-phase column headers, the
    mapping of a record to a row of cell values, and the `current_row` cursor
    that places the report title, each section's title, header and data rows
    on the sheet. Styling and saving the workbook are not part of the model. */
module ExcelReport {
  import Text
  import Values
  import Phases
  import SheetLayout
  import Seqs

  type PhaseId = Phases.PhaseId
  type Value = Values.Value
  type Record = Values.Record

  /** `item.get(key, '')`: the default for text fields. */
  function TextField(item: Record, key: string): Value {
    Values.Get(item, key, Values.Str(""))
  }

  /** `item.get(key)`: date fields are read without a default, so a missing
      one reads as `None`. */
  function DateField(item: Record, key: string): Value {
    Values.Get(item, key, Values.Null)
  }

  /** The header labels of each schema (the branches of `_get_phase_headers`). */
  const HeaderTable: map<Phases.PhaseKind, seq<string>> := map[
    Phases.Reception :=
      ["Turbina", "Component", "VUI", "Serial Number", "Item Number", "Data Descarga"],
    Phases.ComponentWork :=
      ["Turbina", "Component", "VUI", "Serial Number", "Item Number", "Data Início", "Data Fim"],
    Phases.TorqueTensioning :=
      ["Turbina", "Conexão", "Torque Value", "Torque Unit", "Tensioning Value", "Tensioning Unit", "Data"],
    Phases.FinalPhases :=
      ["Turbina", "Fase", "Data Início", "Data Fim", "Status"],
    Phases.Unknown :=
      ["Turbina", "Component", "Data"]
  ]

  /** How one cell is read from a record: `item.get(key, '')` for text,
      `item.get(key)` for dates. */
  datatype Column = TextColumn(key: string) | DateColumn(key: string)

  /** The cells of each schema, in order (the branches of `_format_phase_row`). */
  const ColumnTable: map<Phases.PhaseKind, seq<Column>> := map[
    Phases.Reception := [
      TextColumn("turbinaId"), TextColumn("componentId"), TextColumn("vui"),
      TextColumn("serialNumber"), TextColumn("itemNumber"), DateColumn("dataDescarga")],
    Phases.ComponentWork := [
      TextColumn("turbinaId"), TextColumn("componentId"), TextColumn("vui"),
      TextColumn("serialNumber"), TextColumn("itemNumber"), DateColumn("dataInicio"),
      DateColumn("dataFim")],
    Phases.TorqueTensioning := [
      TextColumn("turbinaId"), TextColumn("conexao"), TextColumn("torqueValue"),
      TextColumn("torqueUnit"), TextColumn("tensioningValue"), TextColumn("tensioningUnit"),
      DateColumn("dataExecucao")],
    Phases.FinalPhases := [
      TextColumn("turbinaId"), TextColumn("faseName"), DateColumn("dataInicio"),
      DateColumn("dataFim"), TextColumn("status")],
    Phases.Unknown := [
      TextColumn("turbinaId"), TextColumn("componentId")]
  ]

  /** `_get_phase_headers`: the column headers of a phase's table, opening
      with "Turbina": 6 for `recepcao`, 7 for the three component phases, 7
      for `torqueTensionamento`, 5 for `fasesFinais` and 3 for any other
      phase. */
  function PhaseHeaders(phase: PhaseId): (h: seq<string>)
    ensures |h| >= 3 && h[0] == "Turbina"
    ensures |h| == match Phases.KindOf(phase)
                   case Reception => 6
                   case ComponentWork => 7
                   case TorqueTensioning => 7
                   case FinalPhases => 5
                   case Unknown => 3
  {
    HeaderTable[Phases.KindOf(phase)]
  }

  /** The cell reads of `_format_phase_row` for a phase: the first reads
      `turbinaId`, and there is one per header label for a known phase and
      one fewer for the fallback. */
  function RowColumns(phase: PhaseId): (cols: seq<Column>)
    ensures |cols| >= 2 && cols[0] == TextColumn("turbinaId")
    ensures |cols| == if Phases.IsKnown(phase) then |PhaseHeaders(phase)| else |PhaseHeaders(phase)| - 1
  {
    ColumnTable[Phases.KindOf(phase)]
  }

  /** Column `j` is read as a date exactly when its header label starts
      with "Data". */
  lemma DateColumnsUnderDataHeaders(phase: PhaseId, j: nat)
    requires j < |RowColumns(phase)|
    ensures RowColumns(phase)[j].DateColumn?
        <==> |PhaseHeaders(phase)[j]| >= 4 && PhaseHeaders(phase)[j][..4] == "Data"
  {
    var name := PhaseHeaders(phase)[j];
    assert 4 <= |name| ==> name[..4] == [name[0], name[1], name[2], name[3]];
  }

  /** One cell: a missing text field reads as `''`, a missing date field as
      `None`; a present field reads as stored, falsy or not. */
  function ReadColumn(item: Record, column: Column): (v: Value)
    ensures column.key in item ==> v == item[column.key]
    ensures column.key !in item && column.TextColumn? ==> v == Values.Str("")
    ensures column.key !in item && column.DateColumn? ==> v == Values.Null
  {
    match column
    case TextColumn(key) => TextField(item, key)
    case DateColumn(key) => DateField(item, key)
  }

  /** The cells of a record under `columns`, in column order. */
  function ReadColumns(item: Record, columns: seq<Column>): (row: seq<Value>)
    ensures |row| == |columns|
  {
    if |columns| == 0 then [] else [ReadColumn(item, columns[0])] + ReadColumns(item, columns[1..])
  }

  /** Cell `j` is read by column `j`. */
  lemma {:induction false} ReadColumnsAt(item: Record, columns: seq<Column>, j: nat)
    requires j < |columns|
    ensures ReadColumns(item, columns)[j] == ReadColumn(item, columns[j])
  {
    if j > 0 {
      ReadColumnsAt(item, columns[1..], j - 1);
    }
  }

  /** `_format_phase_row`: the cell values of one record, one per column of
      the phase's schema. */
  function FormatPhaseRow(phase: PhaseId, item: Record): (row: seq<Value>)
    ensures |row| == |RowColumns(phase)|
  {
    ReadColumns(item, RowColumns(phase))
  }

  /** Cell `j` of a formatted row is what column `j` of the phase's schema
      reads from the record. */
  lemma FormatPhaseRowAt(phase: PhaseId, item: Record, j: nat)
    requires j < |RowColumns(phase)|
    ensures FormatPhaseRow(phase, item)[j] == ReadColumn(item, RowColumns(phase)[j])
  {
    ReadColumnsAt(item, RowColumns(phase), j);
  }

  /** Every row, in every branch, opens with the record's `turbinaId`, or
      `''` when it has none. */
  lemma FirstCellIsTurbine(phase: PhaseId, item: Record)
    ensures |FormatPhaseRow(phase, item)| >= 2
    ensures FormatPhaseRow(phase, item)[0] == TextField(item, "turbinaId")
  {
    FormatPhaseRowAt(phase, item, 0);
  }

  /** A known phase's rows fill every header column; the fallback's rows
      are one cell short of its header. */
  lemma RowWidthMatchesHeaders(phase: PhaseId, item: Record)
    ensures |FormatPhaseRow(phase, item)| == |PhaseHeaders(phase)| <==> Phases.IsKnown(phase)
    ensures !Phases.IsKnown(phase) ==> |FormatPhaseRow(phase, item)| == |PhaseHeaders(phase)| - 1
  {
  }

  /** The fallback layout leaves the third header column, "Data", empty in
      every data row. */
  lemma FallbackLeavesDataColumnEmpty(phase: PhaseId, item: Record)
    requires !Phases.IsKnown(phase)
    ensures PhaseHeaders(phase)[2] == "Data"
    ensures |FormatPhaseRow(phase, item)| == 2
  {
  }

  /** The header labels as cell values. */
  function HeaderCells(phase: PhaseId): (cells: seq<Value>)
    ensures |cells| == |PhaseHeaders(phase)|
  {
    StrCells(PhaseHeaders(phase))
  }

  function StrCells(labels: seq<string>): (cells: seq<Value>)
    ensures |cells| == |labels|
  {
    if |labels| == 0 then [] else [Values.Str(labels[0])] + StrCells(labels[1..])
  }

  /** Header cell `c` holds label `c`. */
  lemma {:induction false} StrCellsAt(labels: seq<string>, c: nat)
    requires c < |labels|
    ensures StrCells(labels)[c] == Values.Str(labels[c])
  {
    if c > 0 {
      StrCellsAt(labels[1..], c - 1);
    }
  }

  /** The formatted rows of a phase's records, in record order. */
  function FormatRows(phase: PhaseId, recs: seq<Record>): (rows: seq<seq<Value>>)
    ensures |rows| == |recs|
  {
    if |recs| == 0 then [] else [FormatPhaseRow(phase, recs[0])] + FormatRows(phase, recs[1..])
  }

  /** Row `i` is record `i`, formatted. */
  lemma {:induction false} FormatRowsAt(phase: PhaseId, recs: seq<Record>, i: nat)
    requires i < |recs|
    ensures FormatRows(phase, recs)[i] == FormatPhaseRow(phase, recs[i])
  {
    if i > 0 {
      FormatRowsAt(phase, recs[1..], i - 1);
    }
  }

  /** The section a phase contributes: its title, header and formatted rows. */
  function SectionOf(phase: PhaseId, recs: seq<Record>): (s: SheetLayout.Section)
    ensures s.title == Phases.SectionTitle(phase)
    ensures |s.records| == |recs|
  {
    SheetLayout.Section(Phases.SectionTitle(phase), HeaderCells(phase), FormatRows(phase, recs))
  }

  /** The sections the selected phases produce, in selection order. */
  function Contents(data: Phases.PhaseData, selected: seq<PhaseId>): seq<SheetLayout.Section>
  {
    if |selected| == 0 then []
    else if Phases.HasSection(data, selected[0])
    then [SectionOf(selected[0], Phases.Lookup(data, selected[0]))] + Contents(data, selected[1..])
    else Contents(data, selected[1..])
  }

  /** The sections of a list of phases, one per phase, in order. */
  function SectionsOf(data: Phases.PhaseData, phases: seq<PhaseId>): (sections: seq<SheetLayout.Section>)
    ensures |sections| == |phases|
  {
    if |phases| == 0 then []
    else [SectionOf(phases[0], Phases.Lookup(data, phases[0]))] + SectionsOf(data, phases[1..])
  }

  /** Section `k` is that of phase `k`. */
  lemma {:induction false} SectionsOfAt(data: Phases.PhaseData, phases: seq<PhaseId>, k: nat)
    requires k < |phases|
    ensures SectionsOf(data, phases)[k] == SectionOf(phases[k], Phases.Lookup(data, phases[k]))
  {
    if k > 0 {
      SectionsOfAt(data, phases[1..], k - 1);
    }
  }

  /** The selection loop writes the sections of exactly the rendered
      phases, in order. */
  lemma {:induction false} ContentsAreRenderedSections(data: Phases.PhaseData, selected: seq<PhaseId>)
    ensures Contents(data, selected) == SectionsOf(data, Phases.Rendered(data, selected))
  {
    if |selected| > 0 {
      ContentsAreRenderedSections(data, selected[1..]);
      ContentsUnfold(data, selected);
      if Phases.HasSection(data, selected[0]) {
        var r := Phases.Rendered(data, selected);
        assert r[0] == selected[0] && r[1..] == Phases.Rendered(data, selected[1..]);
      }
    }
  }

  /** As many sections as rendered phases. */
  lemma ContentsLength(data: Phases.PhaseData, selected: seq<PhaseId>)
    ensures |Contents(data, selected)| == |Phases.Rendered(data, selected)|
  {
    ContentsAreRenderedSections(data, selected);
  }

  /** The `k`-th section is that of the `k`-th rendered phase. */
  lemma ContentsAt(data: Phases.PhaseData, selected: seq<PhaseId>, k: nat)
    requires k < |Phases.Rendered(data, selected)|
    ensures |Contents(data, selected)| == |Phases.Rendered(data, selected)|
    ensures Contents(data, selected)[k]
         == SectionOf(Phases.Rendered(data, selected)[k], Phases.Lookup(data, Phases.Rendered(data, selected)[k]))
  {
    ContentsAreRenderedSections(data, selected);
    SectionsOfAt(data, Phases.Rendered(data, selected), k);
  }

  /** One step of the selection loop, for the sections and the rendered
      phases side by side. */
  lemma ContentsUnfold(data: Phases.PhaseData, selected: seq<PhaseId>)
    requires |selected| > 0
    ensures Phases.HasSection(data, selected[0]) ==>
              Phases.Rendered(data, selected) == [selected[0]] + Phases.Rendered(data, selected[1..])
              && Contents(data, selected)
                 == [SectionOf(selected[0], Phases.Lookup(data, selected[0]))] + Contents(data, selected[1..])
    ensures !Phases.HasSection(data, selected[0]) ==>
              Phases.Rendered(data, selected) == Phases.Rendered(data, selected[1..])
              && Contents(data, selected) == Contents(data, selected[1..])
  {
  }

  /** Selecting a phase first adds its section, if it has one, in front. */
  lemma ContentsCons(data: Phases.PhaseData, phase: PhaseId, rest: seq<PhaseId>)
    ensures Contents(data, [phase] + rest)
         == (if Phases.HasSection(data, phase)
             then [SectionOf(phase, Phases.Lookup(data, phase))] else [])
            + Contents(data, rest)
  {
    assert ([phase] + rest)[0] == phase && ([phase] + rest)[1..] == rest;
  }

  /** The report title is on row 1, the generation time on row 2, and the
      first section starts on row 4. */
  const FirstSectionRow: nat := 4

  /** Rows 1 and 2. The generation time `stamp` is a parameter: the clock
      is not part of the model. */
  function Preamble(projectName: string, stamp: string): seq<SheetLayout.SheetRow> {
    [SheetLayout.SheetRow(1, SheetLayout.ReportTitle, [Values.Str("Installation Report - " + projectName)]),
     SheetLayout.SheetRow(2, SheetLayout.Generated, [Values.Str("Generated: " + stamp)])]
  }

  /** The whole sheet `generate_excel_report` writes, row by row. */
  function ExcelLayout(projectName: string, stamp: string, data: Phases.PhaseData,
                       selected: seq<PhaseId>): seq<SheetLayout.SheetRow>
  {
    Preamble(projectName, stamp) + SheetLayout.Place(Contents(data, selected), FirstSectionRow)
  }

  /** The title and time occupy rows 1 and 2, every section row lies from
      row 4 down, and no two rows share a row number: the sheet's writes
      never overwrite each other. */
  lemma ExcelLayoutIncreasing(projectName: string, stamp: string, data: Phases.PhaseData,
                              selected: seq<PhaseId>)
    ensures |ExcelLayout(projectName, stamp, data, selected)| >= 2
    ensures ExcelLayout(projectName, stamp, data, selected)[0].index == 1
    ensures ExcelLayout(projectName, stamp, data, selected)[1].index == 2
    ensures forall k :: 2 <= k < |ExcelLayout(projectName, stamp, data, selected)| ==>
      ExcelLayout(projectName, stamp, data, selected)[k].index >= FirstSectionRow
    ensures SheetLayout.Increasing(ExcelLayout(projectName, stamp, data, selected))
  {
    var pre := Preamble(projectName, stamp);
    var sections := SheetLayout.Place(Contents(data, selected), FirstSectionRow);
    SheetLayout.PlaceWithinBand(Contents(data, selected), FirstSectionRow);
    SheetLayout.IncreasingAppend(pre, sections, FirstSectionRow);
    var rows := pre + sections;
    forall k | 2 <= k < |rows| ensures rows[k].index >= FirstSectionRow {
      assert rows[k] == sections[k - 2];
    }
  }

  /** One section of `generate_excel_report`: the title row, the header
      row, then the data rows. */
  method WriteSection(rows: seq<SheetLayout.SheetRow>, phase: PhaseId, phaseData: seq<Record>, start: nat)
    returns (written: seq<SheetLayout.SheetRow>, nextRow: nat)
    ensures written == rows + SheetLayout.SectionRows(SectionOf(phase, phaseData), start)
    ensures nextRow == start + |phaseData| + 2
  {
    var title := SheetLayout.SheetRow(start, SheetLayout.SectionHeading, [Values.Str(Phases.SectionTitle(phase))]);
    var header := SheetLayout.SheetRow(start + 1, SheetLayout.ColumnHeader, HeaderCells(phase));
    written, nextRow := SheetLayout.WriteDataRows(rows + [title] + [header], FormatRows(phase, phaseData), start + 2);
    Seqs.TwoThenRest(rows, title, header, SheetLayout.DataRows(FormatRows(phase, phaseData), start + 2));
  }

  /** A selected phase without records leaves the remaining sections as
      they are. */
  lemma SkipStep(data: Phases.PhaseData, selected: seq<PhaseId>, i: nat)
    requires i < |selected| && !Phases.HasSection(data, selected[i])
    ensures Contents(data, selected[i..]) == Contents(data, selected[i + 1..])
  {
    assert selected[i..] == [selected[i]] + selected[i + 1..];
    ContentsCons(data, selected[i], selected[i + 1..]);
    assert [] + Contents(data, selected[i + 1..]) == Contents(data, selected[i + 1..]);
  }

  /** A selected phase with records is placed at the cursor, and the
      remaining sections follow `|records| + 4` rows further down. */
  lemma TakeStep(data: Phases.PhaseData, selected: seq<PhaseId>, i: nat, cursor: nat, next: nat)
    requires i < |selected| && Phases.HasSection(data, selected[i])
    requires next == cursor + |Phases.Lookup(data, selected[i])| + 4
    ensures SheetLayout.Place(Contents(data, selected[i..]), cursor)
         == SheetLayout.SectionRows(SectionOf(selected[i], Phases.Lookup(data, selected[i])), cursor)
            + SheetLayout.Place(Contents(data, selected[i + 1..]), next)
  {
    var phase := selected[i];
    var section := SectionOf(phase, Phases.Lookup(data, phase));
    assert selected[i..] == [phase] + selected[i + 1..];
    ContentsCons(data, phase, selected[i + 1..]);
    SheetLayout.PlaceCons(section, Contents(data, selected[i + 1..]), cursor, next);
  }

  /** One pass of the `current_row` loop for a phase with records: the
      section is written at the cursor, two blank rows follow, and what is
      written plus what remains to place is unchanged. */
  method PlaceSection(rows: seq<SheetLayout.SheetRow>, data: Phases.PhaseData, selected: seq<PhaseId>,
                      i: nat, cursor: nat)
    returns (written: seq<SheetLayout.SheetRow>, next: nat)
    requires i < |selected| && Phases.HasSection(data, selected[i])
    ensures next == cursor + |Phases.Lookup(data, selected[i])| + 4
    ensures written + SheetLayout.Place(Contents(data, selected[i + 1..]), next)
         == rows + SheetLayout.Place(Contents(data, selected[i..]), cursor)
  {
    var phase := selected[i];
    var phaseData := Phases.Lookup(data, phase);
    written, next := WriteSection(rows, phase, phaseData, cursor);
    next := next + 2;
    TakeStep(data, selected, i, cursor, next);
    Seqs.AppendAssoc(rows, SheetLayout.SectionRows(SectionOf(phase, phaseData), cursor),
                     SheetLayout.Place(Contents(data, selected[i + 1..]), next));
  }

  /** The `current_row` loop of `generate_excel_report`: it writes the same
      rows as `ExcelLayout`, in the same order. */
  method GenerateExcelReport(projectName: string, stamp: string, data: Phases.PhaseData,
                             selected: seq<PhaseId>)
    returns (rows: seq<SheetLayout.SheetRow>)
    ensures rows == ExcelLayout(projectName, stamp, data, selected)
  {
    ghost var target := ExcelLayout(projectName, stamp, data, selected);
    var currentRow: nat := 1;
    rows := [SheetLayout.SheetRow(currentRow, SheetLayout.ReportTitle,
                                  [Values.Str("Installation Report - " + projectName)])];
    currentRow := currentRow + 1;
    rows := rows + [SheetLayout.SheetRow(currentRow, SheetLayout.Generated,
                                         [Values.Str("Generated: " + stamp)])];
    currentRow := currentRow + 2;
    assert selected[0..] == selected;

    var i := 0;
    while i < |selected|
      invariant 0 <= i <= |selected|
      invariant rows + SheetLayout.Place(Contents(data, selected[i..]), currentRow) == target
    {
      var phase := selected[i];
      var phaseData := Phases.Lookup(data, phase);
      if |phaseData| == 0 {
        SkipStep(data, selected, i);
        i := i + 1;
        continue;
      }
      rows, currentRow := PlaceSection(rows, data, selected, i, currentRow);
      i := i + 1;
    }
    assert selected[i..] == [];
  }

  /** The row on which the `k`-th rendered section's title is written. */
  function SectionStartRow(data: Phases.PhaseData, selected: seq<PhaseId>, k: nat): nat
    requires k < |Phases.Rendered(data, selected)|
  {
    ContentsLength(data, selected);
    FirstSectionRow + SheetLayout.Span(Contents(data, selected)[..k])
  }

  /** The cursor arithmetic of `generate_excel_report`: the first section
      starts on row 4, and each later one `|records| + 4` rows below the
      previous (title, header, one row per record, two blank rows). */
  lemma SectionStartRowAdvances(data: Phases.PhaseData, selected: seq<PhaseId>, k: nat)
    requires k < |Phases.Rendered(data, selected)|
    ensures SectionStartRow(data, selected, 0) == FirstSectionRow
    ensures k + 1 < |Phases.Rendered(data, selected)| ==>
      SectionStartRow(data, selected, k + 1)
      == SectionStartRow(data, selected, k) + |Phases.Lookup(data, Phases.Rendered(data, selected)[k])| + 4
  {
    var sections := Contents(data, selected);
    ContentsAt(data, selected, k);
    assert sections[..0] == [];
    SheetLayout.SectionStart(sections, k, FirstSectionRow);
  }

  /** Where the report's own cells land: the title in A1, the generation
      time in A2. */
  lemma PreambleOnSheet(projectName: string, stamp: string, data: Phases.PhaseData, selected: seq<PhaseId>)
    ensures (1, 1) in SheetLayout.Render(ExcelLayout(projectName, stamp, data, selected))
    ensures SheetLayout.Render(ExcelLayout(projectName, stamp, data, selected))[(1, 1)]
         == Values.Str("Installation Report - " + projectName)
    ensures (2, 1) in SheetLayout.Render(ExcelLayout(projectName, stamp, data, selected))
    ensures SheetLayout.Render(ExcelLayout(projectName, stamp, data, selected))[(2, 1)]
         == Values.Str("Generated: " + stamp)
  {
    var rows := ExcelLayout(projectName, stamp, data, selected);
    var pre := Preamble(projectName, stamp);
    assert rows == pre + SheetLayout.Place(Contents(data, selected), FirstSectionRow);
    assert rows[0] == pre[0] && rows[1] == pre[1];
    ExcelLayoutIncreasing(projectName, stamp, data, selected);
    SheetLayout.RenderKeepsEveryCell(rows, 0, 0, 1, 1);
    SheetLayout.RenderKeepsEveryCell(rows, 1, 0, 2, 1);
  }

  /** The `k`-th section's cell `(j, c)` on the rendered sheet, where `j`
      counts rows from its title. */
  lemma SectionCell(projectName: string, stamp: string, data: Phases.PhaseData,
                    selected: seq<PhaseId>, k: nat, j: nat, c: nat, r: nat, col: nat, value: Value)
    requires k < |Phases.Rendered(data, selected)|
    requires j < |Phases.Lookup(data, Phases.Rendered(data, selected)[k])| + 2
    requires c < |SheetLayout.SectionRows(SectionOf(Phases.Rendered(data, selected)[k],
                                                    Phases.Lookup(data, Phases.Rendered(data, selected)[k])),
                                          SectionStartRow(data, selected, k))[j].cells|
    requires r == SectionStartRow(data, selected, k) + j && col == c + 1
    requires value == SheetLayout.SectionRows(SectionOf(Phases.Rendered(data, selected)[k],
                                                        Phases.Lookup(data, Phases.Rendered(data, selected)[k])),
                                              SectionStartRow(data, selected, k))[j].cells[c]
    ensures (r, col) in SheetLayout.Render(ExcelLayout(projectName, stamp, data, selected))
    ensures SheetLayout.Render(ExcelLayout(projectName, stamp, data, selected))[(r, col)] == value
  {
    var sections := Contents(data, selected);
    var pre := Preamble(projectName, stamp);
    ContentsAt(data, selected, k);
    ExcelLayoutIncreasing(projectName, stamp, data, selected);
    assert ExcelLayout(projectName, stamp, data, selected) == pre + SheetLayout.Place(sections, FirstSectionRow);
    SheetLayout.SectionCellOnSheet(pre, sections, FirstSectionRow, k, j, c, SectionStartRow(data, selected, k), r, col);
  }

  /** The `k`-th rendered section's title lands in column A of its start
      row. */
  lemma SectionTitleOnSheet(projectName: string, stamp: string, data: Phases.PhaseData,
                            selected: seq<PhaseId>, k: nat, r: nat)
    requires k < |Phases.Rendered(data, selected)|
    requires r == SectionStartRow(data, selected, k)
    ensures (r, 1) in SheetLayout.Render(ExcelLayout(projectName, stamp, data, selected))
    ensures SheetLayout.Render(ExcelLayout(projectName, stamp, data, selected))[(r, 1)]
         == Values.Str(Phases.SectionTitle(Phases.Rendered(data, selected)[k]))
  {
    SheetLayout.SectionRowsAt(SectionOf(Phases.Rendered(data, selected)[k],
                                        Phases.Lookup(data, Phases.Rendered(data, selected)[k])),
                              SectionStartRow(data, selected, k), 0);
    SectionCell(projectName, stamp, data, selected, k, 0, 0, r, 1,
                Values.Str(Phases.SectionTitle(Phases.Rendered(data, selected)[k])));
  }

  /** The `k`-th rendered section's header labels fill the row below its
      title, label `c` in column `c + 1`. */
  lemma SectionHeaderOnSheet(projectName: string, stamp: string, data: Phases.PhaseData,
                             selected: seq<PhaseId>, k: nat, c: nat, r: nat, col: nat)
    requires k < |Phases.Rendered(data, selected)|
    requires c < |PhaseHeaders(Phases.Rendered(data, selected)[k])|
    requires r == SectionStartRow(data, selected, k) + 1 && col == c + 1
    ensures (r, col) in SheetLayout.Render(ExcelLayout(projectName, stamp, data, selected))
    ensures SheetLayout.Render(ExcelLayout(projectName, stamp, data, selected))[(r, col)]
         == Values.Str(PhaseHeaders(Phases.Rendered(data, selected)[k])[c])
  {
    SheetLayout.SectionRowsAt(SectionOf(Phases.Rendered(data, selected)[k],
                                        Phases.Lookup(data, Phases.Rendered(data, selected)[k])),
                              SectionStartRow(data, selected, k), 1);
    StrCellsAt(PhaseHeaders(Phases.Rendered(data, selected)[k]), c);
    SectionCell(projectName, stamp, data, selected, k, 1, c, r, col,
                Values.Str(PhaseHeaders(Phases.Rendered(data, selected)[k])[c]));
  }

  /** Within its section, record `i`'s cell `c` is two rows below the
      title and holds what column `c` reads from the record. */
  lemma RecordCellInSection(phase: PhaseId, recs: seq<Record>, at: nat, i: nat, c: nat)
    requires i < |recs| && c < |RowColumns(phase)|
    ensures 2 + i < |SheetLayout.SectionRows(SectionOf(phase, recs), at)|
    ensures c < |SheetLayout.SectionRows(SectionOf(phase, recs), at)[2 + i].cells|
    ensures SheetLayout.SectionRows(SectionOf(phase, recs), at)[2 + i].cells[c] == ReadColumn(recs[i], RowColumns(phase)[c])
  {
    FormatRowsAt(phase, recs, i);
    SheetLayout.SectionRowsAt(SectionOf(phase, recs), at, 2 + i);
    FormatPhaseRowAt(phase, recs[i], c);
  }

  /** Record `i` of the `k`-th rendered phase lands `i` rows below the
      header, and its `c`-th cell in column `c + 1` holds what
      `_format_phase_row` reads for that column: the stored value, or the
      column's default when the record lacks the field. */
  lemma RecordOnSheet(projectName: string, stamp: string, data: Phases.PhaseData,
                      selected: seq<PhaseId>, k: nat, i: nat, c: nat, r: nat, col: nat)
    requires k < |Phases.Rendered(data, selected)|
    requires i < |Phases.Lookup(data, Phases.Rendered(data, selected)[k])|
    requires c < |RowColumns(Phases.Rendered(data, selected)[k])|
    requires r == SectionStartRow(data, selected, k) + 2 + i && col == c + 1
    ensures (r, col) in SheetLayout.Render(ExcelLayout(projectName, stamp, data, selected))
    ensures SheetLayout.Render(ExcelLayout(projectName, stamp, data, selected))[(r, col)]
         == ReadColumn(Phases.Lookup(data, Phases.Rendered(data, selected)[k])[i],
                       RowColumns(Phases.Rendered(data, selected)[k])[c])
  {
    RecordCellInSection(Phases.Rendered(data, selected)[k], Phases.Lookup(data, Phases.Rendered(data, selected)[k]),
                        SectionStartRow(data, selected, k), i, c);
    SectionCell(projectName, stamp, data, selected, k, 2 + i, c, r, col,
                ReadColumn(Phases.Lookup(data, Phases.Rendered(data, selected)[k])[i],
                           RowColumns(Phases.Rendered(data, selected)[k])[c]));
  }

  /** For a phase without a known schema, the fallback header puts "Data"
      over column C, and no record row ever fills that column: the cell is
      absent from the finished sheet. */
  lemma FallbackDataColumnEmptyOnSheet(projectName: string, stamp: string, data: Phases.PhaseData,
                                       selected: seq<PhaseId>, k: nat, i: nat, r: nat)
    requires k < |Phases.Rendered(data, selected)|
    requires !Phases.IsKnown(Phases.Rendered(data, selected)[k])
    requires i < |Phases.Lookup(data, Phases.Rendered(data, selected)[k])|
    requires r == SectionStartRow(data, selected, k) + 2 + i
    ensures PhaseHeaders(Phases.Rendered(data, selected)[k])[2] == "Data"
    ensures (r, 3) !in SheetLayout.Render(ExcelLayout(projectName, stamp, data, selected))
  {
    var phase := Phases.Rendered(data, selected)[k];
    var recs := Phases.Lookup(data, phase);
    var at := SectionStartRow(data, selected, k);
    var sections := Contents(data, selected);
    var pre := Preamble(projectName, stamp);
    ContentsAt(data, selected, k);
    ExcelLayoutIncreasing(projectName, stamp, data, selected);
    FormatRowsAt(phase, recs, i);
    SheetLayout.SectionRowsAt(SectionOf(phase, recs), at, 2 + i);
    assert ExcelLayout(projectName, stamp, data, selected) == pre + SheetLayout.Place(sections, FirstSectionRow);
    SheetLayout.SectionCellOffSheet(pre, sections, FirstSectionRow, k, 2 + i, at, r, 3);
  }
}
