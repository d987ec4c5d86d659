/** The PDF generator's shaping layer: the table `_create_phase_table`
    builds for a phase (header row plus one row of display strings per
    record) and the sequence of flowables `generate_pdf_report` appends to
    its story. Page setup, table styling and `doc.build` are not part of the
    model. */
module PdfReport {
  import Values
  import Text
  import Phases
  import Seqs

  type PhaseId = Phases.PhaseId
  type Value = Values.Value
  type Record = Values.Record

  datatype Option<T> = None | Some(value: T)

  /** The header labels of each known schema (the branches of
      `_create_phase_table`; an unknown phase has none). */
  const HeaderTable: map<Phases.PhaseKind, seq<string>> := map[
    Phases.Reception :=
      ["Turbina", "Component", "VUI", "Serial Number", "Item Number", "Data Descarga"],
    Phases.ComponentWork :=
      ["Turbina", "Component", "VUI", "Serial Number", "Item Number", "Data Início", "Data Fim"],
    Phases.TorqueTensioning :=
      ["Turbina", "Conexão", "Torque Value", "Torque Unit", "Tensioning Value", "Tensioning Unit", "Data"],
    Phases.FinalPhases :=
      ["Turbina", "Fase", "Data Início", "Data Fim", "Status"]
  ]

  /** The record keys read for each known schema, in column order. */
  const KeyTable: map<Phases.PhaseKind, seq<string>> := map[
    Phases.Reception :=
      ["turbinaId", "componentId", "vui", "serialNumber", "itemNumber", "dataDescarga"],
    Phases.ComponentWork :=
      ["turbinaId", "componentId", "vui", "serialNumber", "itemNumber", "dataInicio", "dataFim"],
    Phases.TorqueTensioning :=
      ["turbinaId", "conexao", "torqueValue", "torqueUnit", "tensioningValue", "tensioningUnit", "dataExecucao"],
    Phases.FinalPhases :=
      ["turbinaId", "faseName", "dataInicio", "dataFim", "status"]
  ]

  /** The keys whose values are formatted as dates. */
  const DateKeys: set<string> := {"dataDescarga", "dataInicio", "dataFim", "dataExecucao"}

  /** Exactly the known schemas have a table layout, and in each the header
      and the keys line up one to one. */
  lemma TableLayoutsAreKnown(phase: PhaseId)
    ensures Phases.KindOf(phase) in HeaderTable <==> Phases.IsKnown(phase)
    ensures Phases.KindOf(phase) in KeyTable <==> Phases.IsKnown(phase)
    ensures Phases.IsKnown(phase) ==>
      |HeaderTable[Phases.KindOf(phase)]| == |KeyTable[Phases.KindOf(phase)]| >= 5
  {
  }

  /** The date branch of the cell loop: anything with `strftime` becomes
      `DD/MM/YYYY`, another truthy value its `str`, a falsy one `''`. */
  function DateFormatted(value: Value): (r: Value)
    ensures r.Str?
    ensures Values.Truthy(r) <==> Values.Truthy(value)
    ensures Values.HasStrftime(value) ==> r.s == Values.DayMonthYear(value.date)
    ensures !Values.HasStrftime(value) && Values.Truthy(value) ==> r.s == Values.Show(value)
  {
    if Values.HasStrftime(value) then Values.Str(Values.DayMonthYear(value.date))
    else if Values.Truthy(value) then Values.Str(Values.Show(value))
    else Values.Str("")
  }

  /** The display string of a value already read from column `key`: the
      date branch for date keys, then `str(value) if value else ''`. A
      cell is blank exactly when the value read is falsy. */
  function Rendition(key: string, value: Value): (t: string)
    ensures t == "" <==> !Values.Truthy(value)
  {
    var formatted := if key in DateKeys then DateFormatted(value) else value;
    if Values.Truthy(formatted) then Values.Show(formatted) else ""
  }

  /** The cell rule in one piece: a date or datetime under a date key
      shows as `DD/MM/YYYY`, any other truthy value as its `str`, and a
      falsy value as the empty string. */
  lemma RenditionRule(key: string, value: Value)
    ensures key in DateKeys && Values.HasStrftime(value) ==>
      Rendition(key, value) == Values.DayMonthYear(value.date)
    ensures Values.Truthy(value) && !(key in DateKeys && Values.HasStrftime(value)) ==>
      Rendition(key, value) == Values.Show(value)
    ensures !Values.Truthy(value) ==> Rendition(key, value) == ""
  {
  }

  /** One cell: `item.get(col_key, '')`, then formatted. A missing field
      is blank, and so is a present falsy one (`''`, `None`, `0`, `False`):
      a torque value of 0 prints as nothing. A present string under a
      non-date key shows verbatim. */
  function CellText(item: Record, key: string): (t: string)
    ensures key !in item ==> t == ""
    ensures key in item ==> (t == "" <==> !Values.Truthy(item[key]))
    ensures key in item && key !in DateKeys && item[key].Str? ==> t == item[key].s
  {
    Rendition(key, Values.Get(item, key, Values.Str("")))
  }

  /** One table row: a cell per key, in key order. */
  function TableRow(item: Record, keys: seq<string>): (row: seq<string>)
    ensures |row| == |keys|
  {
    if |keys| == 0 then [] else [CellText(item, keys[0])] + TableRow(item, keys[1..])
  }

  /** Cell `j` of a row is the record's field `keys[j]`, formatted. */
  lemma {:induction false} TableRowAt(item: Record, keys: seq<string>, j: nat)
    requires j < |keys|
    ensures TableRow(item, keys)[j] == CellText(item, keys[j])
  {
    if j > 0 {
      TableRowAt(item, keys[1..], j - 1);
    }
  }

  /** The data rows: one per record, in record order. */
  function TableBody(recs: seq<Record>, keys: seq<string>): (rows: seq<seq<string>>)
    ensures |rows| == |recs|
  {
    if |recs| == 0 then [] else [TableRow(recs[0], keys)] + TableBody(recs[1..], keys)
  }

  /** Data row `i` is record `i`'s row. */
  lemma {:induction false} TableBodyAt(recs: seq<Record>, keys: seq<string>, i: nat)
    requires i < |recs|
    ensures TableBody(recs, keys)[i] == TableRow(recs[i], keys)
  {
    if i > 0 {
      TableBodyAt(recs[1..], keys, i - 1);
    }
  }

  /** `_create_phase_table`: `None` for a phase it does not know, otherwise
      the header row followed by one row per record. */
  function CreatePhaseTable(phase: PhaseId, recs: seq<Record>): (t: Option<seq<seq<string>>>)
    ensures t.None? <==> !Phases.IsKnown(phase)
    ensures t.Some? ==> |t.value| == |recs| + 1 && t.value[0] == HeaderTable[Phases.KindOf(phase)]
  {
    if !Phases.IsKnown(phase) then None
    else Some([HeaderTable[Phases.KindOf(phase)]] + TableBody(recs, KeyTable[Phases.KindOf(phase)]))
  }

  /** Row `i + 1` of a known phase's table is record `i`: its cell `j` is
      the record's field named by the `j`-th key, formatted. */
  lemma PhaseTableCell(phase: PhaseId, recs: seq<Record>, i: nat, j: nat)
    requires Phases.IsKnown(phase)
    requires i < |recs| && j < |KeyTable[Phases.KindOf(phase)]|
    ensures CreatePhaseTable(phase, recs).Some?
    ensures |CreatePhaseTable(phase, recs).value[i + 1]| == |KeyTable[Phases.KindOf(phase)]|
    ensures CreatePhaseTable(phase, recs).value[i + 1][j] == CellText(recs[i], KeyTable[Phases.KindOf(phase)][j])
  {
    TableBodyAt(recs, KeyTable[Phases.KindOf(phase)], i);
    TableRowAt(recs[i], KeyTable[Phases.KindOf(phase)], j);
  }

  /** Every row of a table, the header included, has one cell per header
      label. */
  lemma TableIsRectangular(phase: PhaseId, recs: seq<Record>, i: nat)
    requires Phases.IsKnown(phase)
    requires i <= |recs|
    ensures CreatePhaseTable(phase, recs).Some?
    ensures |CreatePhaseTable(phase, recs).value[i]| == |HeaderTable[Phases.KindOf(phase)]|
  {
    TableLayoutsAreKnown(phase);
    if i > 0 {
      TableBodyAt(recs, KeyTable[Phases.KindOf(phase)], i - 1);
    }
  }

  /** The paragraph styles the story uses: the custom title, `Normal`, and
      the custom section title. */
  datatype Style = ReportTitle | Normal | SectionTitle

  /** The story elements: a paragraph of marked-up text, a vertical spacer
      (height in millimetres; its 1-point width is not modelled), and a
      table whose first `repeatRows` rows repeat on every page. */
  datatype Flowable =
    | Paragraph(style: Style, text: string)
    | Spacer(heightMm: nat)
    | Table(rows: seq<seq<string>>, repeatRows: nat)

  /** The title paragraph, the generation-time paragraph and a 1 cm gap.
      The time `stamp` is a parameter: the clock is not part of the model. */
  function Preamble(projectName: string, stamp: string): seq<Flowable> {
    [Paragraph(ReportTitle, "Installation Report<br/>" + projectName),
     Paragraph(Normal, "<font size=10>Generated: " + stamp + "</font>"),
     Spacer(10)]
  }

  /** What one phase with records adds: its section title, then, when
      `_create_phase_table` returns a table, the table (header row
      repeated) and a 0.5 cm gap. */
  function PhaseItems(phase: PhaseId, recs: seq<Record>): (items: seq<Flowable>)
    ensures |items| == if Phases.IsKnown(phase) then 3 else 1
    ensures items[0] == Paragraph(SectionTitle, Phases.SectionTitle(phase))
  {
    [Paragraph(SectionTitle, Phases.SectionTitle(phase))]
    + match CreatePhaseTable(phase, recs)
      case None => []
      case Some(rows) => [Table(rows, 1), Spacer(5)]
  }

  /** A known phase gets its title, its table and a gap; an unknown one
      only its upper-cased identifier as a title, and no table. */
  lemma PhaseItemsShape(phase: PhaseId, recs: seq<Record>)
    ensures PhaseItems(phase, recs)[0] == Paragraph(SectionTitle, Phases.SectionTitle(phase))
    ensures Phases.IsKnown(phase) ==>
              |PhaseItems(phase, recs)| == 3
              && PhaseItems(phase, recs)[1] == Table(CreatePhaseTable(phase, recs).value, 1)
              && PhaseItems(phase, recs)[2] == Spacer(5)
    ensures !Phases.IsKnown(phase) ==>
      PhaseItems(phase, recs) == [Paragraph(SectionTitle, Text.Upper(phase))]
  {
  }

  /** The flowables the phase loop appends, in selection order; phases
      without records add nothing. */
  function Body(data: Phases.PhaseData, selected: seq<PhaseId>): seq<Flowable> {
    if |selected| == 0 then []
    else if Phases.HasSection(data, selected[0])
    then PhaseItems(selected[0], Phases.Lookup(data, selected[0])) + Body(data, selected[1..])
    else Body(data, selected[1..])
  }

  /** The whole story `generate_pdf_report` hands to `doc.build`. */
  function PdfStory(projectName: string, stamp: string, data: Phases.PhaseData,
                    selected: seq<PhaseId>): seq<Flowable>
  {
    Preamble(projectName, stamp) + Body(data, selected)
  }

  /** Every phase with records adds at least its heading and at most a
      heading, a table and a gap, so the story after the three preamble
      items has between one and three items per rendered phase. */
  lemma {:induction false} StorySize(projectName: string, stamp: string, data: Phases.PhaseData,
                                     selected: seq<PhaseId>)
    ensures |Phases.Rendered(data, selected)| <= |Body(data, selected)| <= 3 * |Phases.Rendered(data, selected)|
    ensures |PdfStory(projectName, stamp, data, selected)| == 3 + |Body(data, selected)|
  {
    if |selected| > 0 {
      StorySize(projectName, stamp, data, selected[1..]);
    }
  }

  /** Whatever is selected, the story opens with the title paragraph, the
      generation-time paragraph and the 1 cm gap, before any section. */
  lemma StoryStartsWithPreamble(projectName: string, stamp: string, data: Phases.PhaseData,
                                selected: seq<PhaseId>)
    ensures |PdfStory(projectName, stamp, data, selected)| >= 3
    ensures PdfStory(projectName, stamp, data, selected)[0]
         == Paragraph(ReportTitle, "Installation Report<br/>" + projectName)
    ensures PdfStory(projectName, stamp, data, selected)[1]
         == Paragraph(Normal, "<font size=10>Generated: " + stamp + "</font>")
    ensures PdfStory(projectName, stamp, data, selected)[2] == Spacer(10)
  {
  }

  /** Selecting a phase first puts its items, if it has records, in front. */
  lemma BodyCons(data: Phases.PhaseData, phase: PhaseId, rest: seq<PhaseId>)
    ensures Body(data, [phase] + rest)
         == (if Phases.HasSection(data, phase) then PhaseItems(phase, Phases.Lookup(data, phase)) else [])
            + Body(data, rest)
  {
    assert ([phase] + rest)[0] == phase && ([phase] + rest)[1..] == rest;
    if !Phases.HasSection(data, phase) {
      assert [] + Body(data, rest) == Body(data, rest);
    }
  }

  /** One pass of the phase loop for a phase with records: the section
      title, then the table and the gap when there is a table. */
  method AppendPhase(story: seq<Flowable>, phase: PhaseId, phaseData: seq<Record>)
    returns (out: seq<Flowable>)
    ensures out == story + PhaseItems(phase, phaseData)
  {
    out := story + [Paragraph(SectionTitle, Phases.SectionTitle(phase))];
    var tableData := CreatePhaseTable(phase, phaseData);
    if tableData.Some? {
      out := out + [Table(tableData.value, 1)];
      out := out + [Spacer(5)];
    }
  }

  /** Selecting `selected[i]` puts its items, if it has records, before
      those of the phases after it. */
  lemma BodyStep(data: Phases.PhaseData, selected: seq<PhaseId>, i: nat)
    requires i < |selected|
    ensures Body(data, selected[i..])
         == (if Phases.HasSection(data, selected[i])
             then PhaseItems(selected[i], Phases.Lookup(data, selected[i])) else [])
            + Body(data, selected[i + 1..])
  {
    assert selected[i..] == [selected[i]] + selected[i + 1..];
    BodyCons(data, selected[i], selected[i + 1..]);
  }

  /** The story-assembly loop of `generate_pdf_report`: it appends the
      same flowables as `PdfStory`, in the same order. */
  method GeneratePdfReport(projectName: string, stamp: string, data: Phases.PhaseData,
                           selected: seq<PhaseId>)
    returns (story: seq<Flowable>)
    ensures story == PdfStory(projectName, stamp, data, selected)
  {
    ghost var target := PdfStory(projectName, stamp, data, selected);
    story := [];
    story := story + [Paragraph(ReportTitle, "Installation Report<br/>" + projectName)];
    story := story + [Paragraph(Normal, "<font size=10>Generated: " + stamp + "</font>")];
    story := story + [Spacer(10)];
    assert selected[0..] == selected;

    var i := 0;
    while i < |selected|
      invariant 0 <= i <= |selected|
      invariant story + Body(data, selected[i..]) == target
    {
      var phase := selected[i];
      var phaseData := Phases.Lookup(data, phase);
      BodyStep(data, selected, i);
      if |phaseData| == 0 {
        assert [] + Body(data, selected[i + 1..]) == Body(data, selected[i + 1..]);
        i := i + 1;
        continue;
      }
      ghost var before := story;
      story := AppendPhase(story, phase, phaseData);
      Seqs.AppendAssoc(before, PhaseItems(phase, phaseData), Body(data, selected[i + 1..]));
      i := i + 1;
    }
    assert selected[i..] == [];
  }

  /** The texts of the section-title paragraphs of a story, in order. */
  function Headings(story: seq<Flowable>): seq<string> {
    if |story| == 0 then []
    else (if story[0].Paragraph? && story[0].style == SectionTitle then [story[0].text] else [])
         + Headings(story[1..])
  }

  lemma {:induction false} HeadingsAppend(a: seq<Flowable>, b: seq<Flowable>)
    ensures Headings(a + b) == Headings(a) + Headings(b)
  {
    if |a| == 0 {
      assert a + b == b;
    } else {
      assert (a + b)[1..] == a[1..] + b;
      HeadingsAppend(a[1..], b);
    }
  }

  /** A phase's items carry exactly one heading, its section title. */
  lemma HeadingsOfItems(phase: PhaseId, recs: seq<Record>)
    ensures Headings(PhaseItems(phase, recs)) == [Phases.SectionTitle(phase)]
  {
    var items := PhaseItems(phase, recs);
    var rest := items[1..];
    assert items == [items[0]] + rest;
    HeadingsAppend([items[0]], rest);
    assert Headings([items[0]]) == [Phases.SectionTitle(phase)];
    if |rest| > 0 {
      assert rest == [rest[0]] + [rest[1]];
      HeadingsAppend([rest[0]], [rest[1]]);
      assert Headings([rest[0]]) == [] && Headings([rest[1]]) == [];
    }
  }

  /** The section headings of the PDF are the titles of exactly the
      rendered phases, in selection order. */
  lemma {:induction false} BodyHeadings(data: Phases.PhaseData, selected: seq<PhaseId>)
    ensures Headings(Body(data, selected)) == Phases.Titles(Phases.Rendered(data, selected))
  {
    if |selected| > 0 {
      BodyHeadings(data, selected[1..]);
      if Phases.HasSection(data, selected[0]) {
        var items := PhaseItems(selected[0], Phases.Lookup(data, selected[0]));
        HeadingsAppend(items, Body(data, selected[1..]));
        HeadingsOfItems(selected[0], Phases.Lookup(data, selected[0]));
        assert [selected[0]] + Phases.Rendered(data, selected[1..]) == Phases.Rendered(data, selected);
      }
    }
  }

  /** The whole story's section headings are the rendered phases' titles:
      the preamble contributes none. */
  lemma StoryHeadings(projectName: string, stamp: string, data: Phases.PhaseData, selected: seq<PhaseId>)
    ensures Headings(PdfStory(projectName, stamp, data, selected))
         == Phases.Titles(Phases.Rendered(data, selected))
  {
    var pre := Preamble(projectName, stamp);
    assert pre == [pre[0]] + ([pre[1]] + [pre[2]]);
    HeadingsAppend([pre[1]], [pre[2]]);
    HeadingsAppend([pre[0]], [pre[1]] + [pre[2]]);
    assert Headings([pre[0]]) == [] && Headings([pre[1]]) == [] && Headings([pre[2]]) == [];
    HeadingsAppend(pre, Body(data, selected));
    BodyHeadings(data, selected);
  }

  /** Every table in `story` repeats exactly its header row, has that
      header row, sits right after a section title and is followed by the
      0.5 cm gap. */
  predicate TablesFramed(story: seq<Flowable>) {
    forall k :: 0 <= k < |story| && story[k].Table? ==>
      story[k].repeatRows == 1 && |story[k].rows| >= 1
      && 1 <= k && story[k - 1].Paragraph? && story[k - 1].style == SectionTitle
      && k + 1 < |story| && story[k + 1] == Spacer(5)
  }

  lemma TablesFramedAppend(a: seq<Flowable>, b: seq<Flowable>)
    requires TablesFramed(a) && TablesFramed(b)
    ensures TablesFramed(a + b)
  {
    forall k | 0 <= k < |a + b| && (a + b)[k].Table?
      ensures (a + b)[k].repeatRows == 1 && |(a + b)[k].rows| >= 1
      ensures 1 <= k && (a + b)[k - 1].Paragraph? && (a + b)[k - 1].style == SectionTitle
      ensures k + 1 < |a + b| && (a + b)[k + 1] == Spacer(5)
    {
      if k < |a| {
        assert (a + b)[k] == a[k];
        assert (a + b)[k - 1] == a[k - 1] && (a + b)[k + 1] == a[k + 1];
      } else {
        assert (a + b)[k] == b[k - |a|];
        assert (a + b)[k - 1] == b[k - 1 - |a|] && (a + b)[k + 1] == b[k + 1 - |a|];
      }
    }
  }

  /** Every table of the story repeats its header row on each page, comes
      right under its section title and is followed by the gap. */
  lemma {:induction false} StoryTablesFramed(projectName: string, stamp: string, data: Phases.PhaseData,
                                             selected: seq<PhaseId>)
    ensures TablesFramed(PdfStory(projectName, stamp, data, selected))
  {
    BodyTablesFramed(data, selected);
    TablesFramedAppend(Preamble(projectName, stamp), Body(data, selected));
  }

  lemma {:induction false} BodyTablesFramed(data: Phases.PhaseData, selected: seq<PhaseId>)
    ensures TablesFramed(Body(data, selected))
  {
    if |selected| > 0 {
      BodyTablesFramed(data, selected[1..]);
      if Phases.HasSection(data, selected[0]) {
        var items := PhaseItems(selected[0], Phases.Lookup(data, selected[0]));
        PhaseItemsShape(selected[0], Phases.Lookup(data, selected[0]));
        TablesFramedAppend(items, Body(data, selected[1..]));
      }
    }
  }
}
