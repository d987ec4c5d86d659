/** What the workbook and the PDF generators agree on, and where they part:
    the same sections in the same order, the same headers and record keys
    for every known phase, and the same cell contents up to text rendering;
    an unknown phase gets a fallback table in the workbook but none in the
    PDF. */
module ReportAgreement {
  import Values
  import Phases
  import SheetLayout
  import ExcelReport
  import PdfReport

  /** For a known phase the PDF table's header row is the workbook's
      header row. */
  lemma HeadersAgree(phase: Phases.PhaseId)
    requires Phases.IsKnown(phase)
    ensures PdfReport.HeaderTable[Phases.KindOf(phase)] == ExcelReport.PhaseHeaders(phase)
  {
  }

  /** For a known phase both read the same keys in the same order, and the
      workbook reads a field without a default exactly when the PDF formats
      it as a date. */
  lemma ColumnsAgree(phase: Phases.PhaseId, j: nat)
    requires Phases.IsKnown(phase)
    requires j < |ExcelReport.RowColumns(phase)|
    ensures |PdfReport.KeyTable[Phases.KindOf(phase)]| == |ExcelReport.RowColumns(phase)|
    ensures PdfReport.KeyTable[Phases.KindOf(phase)][j] == ExcelReport.RowColumns(phase)[j].key
    ensures ExcelReport.RowColumns(phase)[j].DateColumn?
        <==> PdfReport.KeyTable[Phases.KindOf(phase)][j] in PdfReport.DateKeys
  {
  }

  /** Record `i`'s PDF cell `j` is its workbook cell `j` rendered as text.
      A missing date field reads as `None` in the workbook and `''` in the
      PDF; both render blank. */
  lemma CellsAgree(phase: Phases.PhaseId, recs: seq<Values.Record>, i: nat, j: nat)
    requires Phases.IsKnown(phase)
    requires i < |recs| && j < |ExcelReport.RowColumns(phase)|
    ensures PdfReport.CreatePhaseTable(phase, recs).Some?
    ensures |PdfReport.CreatePhaseTable(phase, recs).value[i + 1]| == |ExcelReport.FormatPhaseRow(phase, recs[i])|
    ensures PdfReport.CreatePhaseTable(phase, recs).value[i + 1][j]
         == PdfReport.Rendition(ExcelReport.RowColumns(phase)[j].key, ExcelReport.FormatPhaseRow(phase, recs[i])[j])
  {
    ColumnsAgree(phase, j);
    PdfReport.PhaseTableCell(phase, recs, i, j);
    ExcelReport.FormatPhaseRowAt(phase, recs[i], j);
  }

  /** Both reports show the same sections in the same order: the `k`-th
      workbook section and the `k`-th PDF heading carry the same title, that
      of the `k`-th rendered phase. */
  lemma SectionsAgree(projectName: string, stamp: string, data: Phases.PhaseData,
                      selected: seq<Phases.PhaseId>, k: nat)
    requires k < |Phases.Rendered(data, selected)|
    ensures |ExcelReport.Contents(data, selected)|
         == |PdfReport.Headings(PdfReport.PdfStory(projectName, stamp, data, selected))|
         == |Phases.Rendered(data, selected)|
    ensures ExcelReport.Contents(data, selected)[k].title
         == PdfReport.Headings(PdfReport.PdfStory(projectName, stamp, data, selected))[k]
         == Phases.SectionTitle(Phases.Rendered(data, selected)[k])
  {
    ExcelReport.ContentsAt(data, selected, k);
    PdfReport.StoryHeadings(projectName, stamp, data, selected);
    Phases.TitlesAt(Phases.Rendered(data, selected), k);
  }

  /** A selected phase the generators do not know, with records: the
      workbook writes its title, the fallback three-label header and a
      two-cell row per record, while the PDF writes only the upper-cased
      identifier as a heading and no table. */
  lemma UnknownPhaseDiverges(data: Phases.PhaseData, phase: Phases.PhaseId, start: nat)
    requires !Phases.IsKnown(phase) && Phases.HasSection(data, phase)
    ensures ExcelReport.PhaseHeaders(phase) == ["Turbina", "Component", "Data"]
    ensures |SheetLayout.SectionRows(ExcelReport.SectionOf(phase, Phases.Lookup(data, phase)), start)|
         == |Phases.Lookup(data, phase)| + 2
    ensures PdfReport.CreatePhaseTable(phase, Phases.Lookup(data, phase)).None?
    ensures PdfReport.PhaseItems(phase, Phases.Lookup(data, phase))
         == [PdfReport.Paragraph(PdfReport.SectionTitle, Phases.SectionTitle(phase))]
  {
  }
}
