# As-built installation reports: a Dafny model of the report shaping

The as-built redesign app exports installation progress as reports. Two
Python scripts write them. `lib/scripts/excel_report_generator.py` writes a
workbook and `lib/scripts/pdf_report_generator.py` writes a PDF. Both take
four inputs:

- a project name;
- the records of each installation phase (`recepcao`, `preparacao`,
  `preAssemblagem`, `assemblagem`, `torqueTensionamento`, `fasesFinais`);
- the list of phases the user selected;
- the output path, which only the save step uses and the model leaves out.

For every selected phase that has records, each report has one section. In
the workbook it is a title, a table header, and one row per record. In the
PDF it is a heading, followed by a table with a header row and one row per
record only when the phase has a known schema; any other phase gets the
heading alone.

This project models what the two scripts put into their documents, not how
the documents look. It covers:

- Record values as Python sees them (`Values`): strings, integers, booleans,
  dates, datetimes and `None`; their truthiness; `str()` of each; and
  `strftime('%d/%m/%Y')`. Decimal rendering and ASCII `upper()` live in
  `Text`.
- Phase selection, shared by both scripts (`Phases`): `phase_names`,
  `data_by_phase.get(phase, [])`, the `if not phase_data: continue` guard,
  and the `if/elif` chain that picks a record schema.
- The workbook (`ExcelReport`, on top of `SheetLayout`):
  - `_get_phase_headers` and `_format_phase_row`;
  - the `current_row` cursor loop of `generate_excel_report`, which places
    the title on row 1, the generation time on row 2, and then each section
    (title row, header row, data rows, two blank rows) from row 4 down;
  - writing those rows into a sheet, modelled as a map from (row, column) to
    value. That makes "what ends up in cell (r, c)" something one can state
    and prove.
- The PDF (`PdfReport`):
  - `_create_phase_table`, which returns `None` for an unknown phase and
    otherwise a header row plus one row of display strings per record. Under
    a date key, a value that has `strftime` (a date or datetime) is
    formatted as `DD/MM/YYYY`; any other truthy value there prints through
    `str`, and a falsy one as `''`.
  - the story `generate_pdf_report` builds: title paragraph, time paragraph
    and 1 cm spacer; then, per phase with records, a section heading and,
    when a table exists, the table with its header row repeated, followed by
    a 0.5 cm spacer.
- How the two reports relate (`ReportAgreement`):
  - same sections in the same order;
  - same headers and keys for every known phase;
  - each PDF cell is the workbook cell rendered as text;
  - they differ for an unknown phase, which gets a fallback table in the
    workbook and only a heading in the PDF.

`_format_phase_row` reads text fields with `item.get(key, '')` and date
fields with `item.get(key)`, so a missing date field is `None` while a
missing text field is `''` (`ExcelReport.ReadColumn`). The PDF reads every
field with `item.get(key, '')`. Both show as a blank cell, and
`ReportAgreement.CellsAgree` states that.
On the modelled sheet a cell holding `None` stands for a cell openpyxl
leaves empty.

The generation time (`datetime.now()`) is a parameter `stamp` of both
report functions.

Modules:

- `seqs.dfy`: regrouping of concatenations and slicing of separated fields.
- `text.dfy`, `values.dfy`, `phases.dfy`.
- `sheet_layout.dfy`, `excel_report.dfy`.
- `pdf_report.dfy`.
- `report_agreement.dfy`.

## Model

| member | source | states |
|---|---|---|
| Text.NatToString | lib/scripts/pdf_report_generator.py:182 | `str()` of a non-negative integer: non-empty, all decimal digits, no leading zero, and it reads back (`DigitsValue`) as the number itself |
| Text.IntToString | lib/scripts/pdf_report_generator.py:182 | `str()` of an integer: the digits of its magnitude, preceded by `-` exactly when it is negative |
| Text.ZeroPad | lib/scripts/pdf_report_generator.py:176 | a strftime `%d`/`%m`/`%Y` field: exactly the field width when the number's digits fit, otherwise the bare digits |
| Text.ZeroPadReadsBack | lib/scripts/pdf_report_generator.py:176 | a padded field is a run of zeros followed by the number's digits, all decimal digits, and it reads back (`DigitsValue`) as the number |
| Text.ZeroPadField | lib/scripts/pdf_report_generator.py:176 | a number below `10^w` fills a width-`w` field exactly, and the field reads back as the number |
| Text.UpperChar | lib/scripts/excel_report_generator.py:91 | `upper()` of one character, ASCII part only: a lower-case letter becomes the capital at the same place in the alphabet (`a` to `A`, `z` to `Z`), and any other character is left unchanged |
| Text.Upper | lib/scripts/excel_report_generator.py:91 | `phase.upper()`: same length, each character upper-cased on its own |
| Values.IsoDateReadsBack | lib/scripts/pdf_report_generator.py:182 | `str()` of a valid date is `YYYY-MM-DD`: ten characters, dashes at positions 4 and 7, and digit fields that read back as the year, month and day |
| Values.DayMonthYearReadsBack | lib/scripts/pdf_report_generator.py:175-176 | `strftime('%d/%m/%Y')` of a valid date is `DD/MM/YYYY`: ten characters, slashes at positions 2 and 5, and digit fields that read back as the day, month and year |
| Values.Show | lib/scripts/pdf_report_generator.py:177-182 | `str(value)`: a string unchanged, an integer in decimal with its sign, `True`/`False`, a date as `YYYY-MM-DD`, a datetime as the date, a space and the time text, `None` as `None`; and any truthy value gives a non-empty text |
| Values.HourMinuteSecondReadsBack | lib/scripts/pdf_report_generator.py:182 | the `HH:MM:SS` part of `str()` of a valid datetime is eight characters, colons at positions 2 and 5, with fields that read back as the hour, minute and second |
| Values.ClockTextShape | lib/scripts/pdf_report_generator.py:182 | the time part of `str()` of a datetime is `HH:MM:SS`, followed by a dot and the six-digit microsecond field exactly when the microsecond is not zero |
| Values.ClockTextReadsBack | lib/scripts/pdf_report_generator.py:182 | for a valid time, the text is 8 characters when the microsecond is zero and 15 otherwise, and the digits after the dot read back as the microsecond |
| Phases.KindOf | lib/scripts/excel_report_generator.py:142-152 | the schema lookup picks each schema for exactly the identifiers the `if/elif` chain sends to that branch: `recepcao`; the three component phases; `torqueTensionamento`; `fasesFinais` |
| Phases.NamedPhasesAreKnown | lib/scripts/excel_report_generator.py:71-78 | `phase_names` has a title for a phase exactly when the phase has a known schema |
| Phases.SectionTitle | lib/scripts/excel_report_generator.py:91 | `phase_names.get(phase, phase.upper())`: the fixed title for a known phase, the upper-cased identifier otherwise, never blank for a non-empty identifier |
| Phases.Rendered | lib/scripts/excel_report_generator.py:80-84 | the phases that get a section are at most as many as the selected ones |
| Phases.RenderedExactly | lib/scripts/excel_report_generator.py:80-84 | a phase gets a section if and only if it is selected and has at least one record |
| Phases.RenderedAppend | lib/scripts/excel_report_generator.py:80-84 | the selection loop treats each phase on its own: selecting `a` then `b` gives `a`'s sections then `b`'s |
| Phases.Titles | lib/scripts/pdf_report_generator.py:98 | one section title per phase |
| Phases.TitlesAt | lib/scripts/pdf_report_generator.py:98 | title `k` is the `SectionTitle` of phase `k` |
| SheetLayout.IncreasingAppend | lib/scripts/excel_report_generator.py:47-132 | two runs of rows that each go strictly downwards, the first wholly above the second, together go strictly downwards |
| SheetLayout.DataRows | lib/scripts/excel_report_generator.py:116-129 | one data row per record |
| SheetLayout.DataRowsAt | lib/scripts/excel_report_generator.py:116-129 | record `i` is written on row `start + i`, with its cells unchanged |
| SheetLayout.DataRowsSnoc | lib/scripts/excel_report_generator.py:116-129 | one more record adds one row, right after the others |
| SheetLayout.DataRowsPrefixStep | lib/scripts/excel_report_generator.py:116-129 | the rows of the first `j + 1` records are those of the first `j` plus record `j` on row `start + j` |
| SheetLayout.WriteDataRows | lib/scripts/excel_report_generator.py:116-129 | the `for item in phase_data` loop appends exactly the data rows of the records and leaves the cursor one past the last |
| SheetLayout.SectionRows | lib/scripts/excel_report_generator.py:89-129 | a section writes its title row, its header row and one row per record |
| SheetLayout.SectionRowsAt | lib/scripts/excel_report_generator.py:89-129 | row `j` of a section is on row `start + j`: the title alone at `j = 0`, the header at `j = 1`, record `j - 2` after that |
| SheetLayout.PlaceWithinBand | lib/scripts/excel_report_generator.py:80-132 | stacked sections occupy rows from `start` to just before `start + Span` and go strictly downwards, so no section overwrites another |
| SheetLayout.PlaceRowCount | lib/scripts/excel_report_generator.py:80-132 | the rows written fill the span the cursor moves by, except for the two blank rows after each section |
| SheetLayout.PlaceCons | lib/scripts/excel_report_generator.py:89-132 | the first section is placed at the cursor, and the rest start `records + 4` rows further down |
| SheetLayout.SpanAppend | lib/scripts/excel_report_generator.py:80-132 | the rows used by two runs of sections add up |
| SheetLayout.PlaceAppend | lib/scripts/excel_report_generator.py:80-132 | placing `a` then `b` puts `b` right after the rows `a` uses |
| SheetLayout.SectionStart | lib/scripts/excel_report_generator.py:80-132 | section `k` starts at `start` plus the rows used by the sections before it, and the next one starts `records + 4` rows later |
| SheetLayout.WriteRowEffect | lib/scripts/excel_report_generator.py:119-121 | `ws.cell(row, column=col_idx).value = value` over `enumerate(row, start=1)`: cell `c` of a row lands in column `c + 1` of that row, every cell of other rows keeps its value, and no cell is created outside the row's own columns |
| SheetLayout.RenderKeepsEveryCell | lib/scripts/excel_report_generator.py:103-121 | when rows go strictly downwards, every cell written is still on the finished sheet, at its row and 1-based column |
| SheetLayout.RenderDomain | lib/scripts/excel_report_generator.py:103-121 | the finished sheet has a cell at (r, col) if and only if some written row on row r has at least `col` cells |
| SheetLayout.RenderCellAbsent | lib/scripts/excel_report_generator.py:103-121 | when rows go strictly downwards, a column past the end of a row is never set on that row |
| SheetLayout.PlacedRow | lib/scripts/excel_report_generator.py:80-132 | row `j` of section `k` sits at a fixed position in the stacked rows |
| SheetLayout.SectionCellOnSheet | lib/scripts/excel_report_generator.py:89-129 | each cell of each placed section row ends up on the sheet at (section start + `j`, `c + 1`) |
| SheetLayout.SectionCellOffSheet | lib/scripts/excel_report_generator.py:89-129 | a column past the end of a placed section row stays empty on the finished sheet |
| ExcelReport.ReadColumn | lib/scripts/excel_report_generator.py:157-201 | a present field reads as stored, falsy or not; a missing text field reads as `''`; a missing date field reads as `None` |
| ExcelReport.PhaseHeaders | lib/scripts/excel_report_generator.py:139-154 | `_get_phase_headers`: the labels open with "Turbina"; there are 6 for `recepcao`, 7 for the three component phases, 7 for `torqueTensionamento`, 5 for `fasesFinais` and 3 for any other phase |
| ExcelReport.RowColumns | lib/scripts/excel_report_generator.py:157-201 | the branches of `_format_phase_row`: the first cell reads `turbinaId`, and there is one cell per header label for a known phase and one fewer for the fallback |
| ExcelReport.DateColumnsUnderDataHeaders | lib/scripts/excel_report_generator.py:139-201 | a cell is read as a date, without a default, exactly when its header label starts with "Data" |
| ExcelReport.ReadColumnsAt | lib/scripts/excel_report_generator.py:157-201 | cell `j` is read by column `j` |
| ExcelReport.FormatPhaseRow | lib/scripts/excel_report_generator.py:157-201 | `_format_phase_row` gives one cell per column of the phase's schema |
| ExcelReport.FormatPhaseRowAt | lib/scripts/excel_report_generator.py:157-201 | cell `j` of a record's row is what column `j` of the schema reads from the record |
| ExcelReport.FirstCellIsTurbine | lib/scripts/excel_report_generator.py:157-201 | every row, in every branch, has at least two cells and starts with the record's `turbinaId`, or `''` when it has none |
| ExcelReport.RowWidthMatchesHeaders | lib/scripts/excel_report_generator.py:139-201 | a row is as wide as its header if and only if the phase is known, and the fallback row is one cell short |
| ExcelReport.FallbackLeavesDataColumnEmpty | lib/scripts/excel_report_generator.py:139-201 | for an unknown phase the third header is "Data", but every formatted row has only two cells |
| ExcelReport.StrCellsAt | lib/scripts/excel_report_generator.py:103-105 | header cell `c` holds header label `c` |
| ExcelReport.FormatRowsAt | lib/scripts/excel_report_generator.py:116-117 | data row `i` is record `i` formatted by `_format_phase_row` |
| ExcelReport.SectionOf | lib/scripts/excel_report_generator.py:89-117 | a section carries its phase's title and one row per record |
| ExcelReport.SectionsOf | lib/scripts/excel_report_generator.py:89-117 | one section per phase listed |
| ExcelReport.SectionsOfAt | lib/scripts/excel_report_generator.py:89-117 | section `k` is built from phase `k` and its records |
| ExcelReport.ContentsAreRenderedSections | lib/scripts/excel_report_generator.py:80-117 | the selection loop writes the sections of exactly the rendered phases, in selection order |
| ExcelReport.ContentsLength | lib/scripts/excel_report_generator.py:80-84 | there are as many sheet sections as rendered phases |
| ExcelReport.ContentsAt | lib/scripts/excel_report_generator.py:80-117 | section `k` is the section of the `k`-th rendered phase, built from that phase's records |
| ExcelReport.ContentsUnfold | lib/scripts/excel_report_generator.py:80-84 | one step of the selection loop: a phase with records adds its section and its rendered entry at the front; a phase without records adds neither |
| ExcelReport.ContentsCons | lib/scripts/excel_report_generator.py:80-84 | a first selected phase adds its section in front when it has records, and nothing otherwise |
| ExcelReport.ExcelLayoutIncreasing | lib/scripts/excel_report_generator.py:47-132 | the title is on row 1 and the time on row 2; every section row is on row 4 or below; rows go strictly downwards, so no write overwrites another |
| ExcelReport.WriteSection | lib/scripts/excel_report_generator.py:89-129 | one section pass appends the title, the header and the data rows from the cursor, and moves the cursor past them |
| ExcelReport.SkipStep | lib/scripts/excel_report_generator.py:81-84 | a selected phase without records contributes nothing |
| ExcelReport.TakeStep | lib/scripts/excel_report_generator.py:89-132 | a selected phase with records is placed at the cursor, and the next section starts `records + 4` rows below |
| ExcelReport.PlaceSection | lib/scripts/excel_report_generator.py:89-132 | one pass for a phase with records writes its section at the cursor and moves the cursor `records + 4` rows down, leaving written plus pending rows unchanged |
| ExcelReport.GenerateExcelReport | lib/scripts/excel_report_generator.py:47-132 | the cursor loop writes exactly the rows of the layout, in order |
| ExcelReport.SectionStartRowAdvances | lib/scripts/excel_report_generator.py:65-132 | the first section starts on row 4, and when there is a next section it starts `records + 4` rows below this one |
| ExcelReport.PreambleOnSheet | lib/scripts/excel_report_generator.py:52-62 | cell A1 holds "Installation Report - " plus the project name; A2 holds "Generated: " plus the time |
| ExcelReport.SectionCell | lib/scripts/excel_report_generator.py:89-129 | every cell of the `k`-th rendered section is on the finished sheet at its start row + `j`, column `c + 1` |
| ExcelReport.SectionTitleOnSheet | lib/scripts/excel_report_generator.py:89-91 | the `k`-th rendered phase's title is in column A of its section's start row |
| ExcelReport.SectionHeaderOnSheet | lib/scripts/excel_report_generator.py:101-105 | header label `c` is in column `c + 1` of the row below the section title |
| ExcelReport.RecordCellInSection | lib/scripts/excel_report_generator.py:116-121 | within its section, record `i`'s cell `c` is two rows below the title plus `i`, and holds what column `c` reads from the record |
| ExcelReport.RecordOnSheet | lib/scripts/excel_report_generator.py:116-121 | on the finished sheet, record `i`'s cell `c` is in column `c + 1`, `i` rows below the header, and holds the stored field or the column's default |
| ExcelReport.FallbackDataColumnEmptyOnSheet | lib/scripts/excel_report_generator.py:89-129 | for a phase without a known schema, the header puts "Data" over column C and no record row fills that column: the cell is absent from the finished sheet |
| PdfReport.TableLayoutsAreKnown | lib/scripts/pdf_report_generator.py:146-163 | exactly the known schemas have a table layout, and in each the headers and keys pair up one to one |
| PdfReport.DateFormatted | lib/scripts/pdf_report_generator.py:174-180 | the date branch gives a string that is truthy exactly when the value was; a value with `strftime` becomes `DD/MM/YYYY` and any other truthy value its `str` |
| PdfReport.Rendition | lib/scripts/pdf_report_generator.py:171-182 | a cell is blank if and only if the value read is falsy |
| PdfReport.RenditionRule | lib/scripts/pdf_report_generator.py:171-182 | under a date key, a date or datetime shows as `DD/MM/YYYY`; any other truthy value shows as its `str()`; a falsy value shows as `''` |
| PdfReport.CellText | lib/scripts/pdf_report_generator.py:171-182 | a missing field is blank; a present field is blank if and only if it is falsy, so a torque value of 0 prints as nothing; a present string under a non-date key shows verbatim |
| PdfReport.TableRow | lib/scripts/pdf_report_generator.py:169-182 | one cell per column key |
| PdfReport.TableRowAt | lib/scripts/pdf_report_generator.py:169-182 | cell `j` of a row is the record's field `keys[j]`, formatted |
| PdfReport.TableBody | lib/scripts/pdf_report_generator.py:168-184 | one data row per record |
| PdfReport.TableBodyAt | lib/scripts/pdf_report_generator.py:168-184 | data row `i` is record `i`'s row |
| PdfReport.CreatePhaseTable | lib/scripts/pdf_report_generator.py:142-186 | `None` if and only if the phase is unknown; otherwise the header row followed by one row per record |
| PdfReport.PhaseTableCell | lib/scripts/pdf_report_generator.py:166-186 | row `i + 1` of a known phase's table is record `i`, and its cell `j` is the field of the `j`-th key, formatted |
| PdfReport.TableIsRectangular | lib/scripts/pdf_report_generator.py:142-186 | every row of a table, header included, has one cell per header label |
| PdfReport.PhaseItems | lib/scripts/pdf_report_generator.py:97-135 | a phase adds three items when its schema is known and one otherwise, starting with its section title |
| PdfReport.PhaseItemsShape | lib/scripts/pdf_report_generator.py:97-135 | a known phase adds its heading, its table with one repeated header row, and a 0.5 cm spacer; an unknown phase adds only its upper-cased identifier as a heading |
| PdfReport.StoryStartsWithPreamble | lib/scripts/pdf_report_generator.py:68-76 | whatever is selected, the story opens with the title paragraph, the generation-time paragraph and the 1 cm spacer |
| PdfReport.StorySize | lib/scripts/pdf_report_generator.py:62-135 | after the three preamble items, the story has at least one and at most three items per rendered phase |
| PdfReport.BodyCons | lib/scripts/pdf_report_generator.py:91-135 | a first selected phase adds its items in front when it has records, and nothing otherwise |
| PdfReport.AppendPhase | lib/scripts/pdf_report_generator.py:97-135 | one pass of the phase loop appends exactly that phase's items |
| PdfReport.BodyStep | lib/scripts/pdf_report_generator.py:91-135 | selected phase `i` contributes its items, or nothing if it has no records, ahead of the phases after it |
| PdfReport.GeneratePdfReport | lib/scripts/pdf_report_generator.py:62-135 | the story loop appends exactly the modelled story, in order |
| PdfReport.HeadingsAppend | lib/scripts/pdf_report_generator.py:91-99 | the headings of two story pieces are those of the first followed by those of the second |
| PdfReport.HeadingsOfItems | lib/scripts/pdf_report_generator.py:97-99 | a phase's items carry exactly one heading, its section title |
| PdfReport.BodyHeadings | lib/scripts/pdf_report_generator.py:91-99 | the loop's headings are the titles of exactly the rendered phases, in selection order |
| PdfReport.StoryHeadings | lib/scripts/pdf_report_generator.py:62-99 | the whole story's section headings are the rendered phases' titles, with none from the preamble |
| PdfReport.TablesFramedAppend | lib/scripts/pdf_report_generator.py:104-135 | joining two story pieces whose tables are framed keeps every table framed |
| PdfReport.BodyTablesFramed | lib/scripts/pdf_report_generator.py:91-135 | every table the loop appends has its header row, repeats exactly that row, comes right after its heading, and is followed by the 0.5 cm spacer |
| PdfReport.StoryTablesFramed | lib/scripts/pdf_report_generator.py:62-135 | the same holds for the whole story, preamble included |
| ReportAgreement.HeadersAgree | lib/scripts/pdf_report_generator.py:146-160 | for a known phase, the PDF header row equals the workbook header row from `_get_phase_headers` |
| ReportAgreement.ColumnsAgree | lib/scripts/pdf_report_generator.py:146-174 | for a known phase, both reports read the same keys in the same order, and the workbook reads a field without a default exactly when the PDF formats it as a date |
| ReportAgreement.CellsAgree | lib/scripts/pdf_report_generator.py:166-182 | record `i`'s PDF cell `j` is its workbook cell `j` rendered as text; a missing date is `None` in one and `''` in the other, and both show blank |
| ReportAgreement.SectionsAgree | lib/scripts/pdf_report_generator.py:91-99 | both reports show the same sections in the same order, each titled as the rendered phase it belongs to |
| ReportAgreement.UnknownPhaseDiverges | lib/scripts/pdf_report_generator.py:162-163 | for an unknown phase with records, the workbook writes the three-label fallback header and one row per record, while the PDF writes only the heading and no table |

## Left out

- Styling is not modelled: fonts, fills, borders, alignment, column widths, merged cells, page size, margins and `TableStyle`. It changes no cell content and no story element.
- `number_format` on datetime cells is not modelled: it changes the display format only.
- `wb.save`, `doc.build` and the closing `print` are not modelled: they are I/O. The `output_path` argument both generators take is therefore not a parameter of the model.
- `datetime.now()` is replaced by the `stamp` parameter: the clock is an input of the model.
- The `__main__` blocks are not modelled: they read JSON from stdin and call the generators.
- Floating-point field values are not modelled: Python's float `repr` is out of scope. JSON numbers are modelled as integers.
- Text.UpperChar: upper-cases ASCII letters only and leaves every other character unchanged. Python's `str.upper()` also upper-cases non-ASCII letters (`é` becomes `É`).
- Text.Upper: upper-cases ASCII letters only. Python's `str.upper()` also maps non-ASCII letters, and some of them change length (`ß` becomes `SS`).
- Values.DayMonthYear: writes years below 1000 zero-padded to four digits. For such years, what `%Y` prints depends on the platform's `strftime`.
- Values.Show: a `datetime` carries no time zone. `str()` of an aware datetime appends its UTC offset, which the model does not produce.
- Values.Show: JSON arrays and objects are not field values of the model. The PDF would print their `str()`, and openpyxl rejects them when the workbook cell is assigned at excel_report_generator.py:121.
- A `None` entry in `data_by_phase` is not modelled: the model's phase map holds record lists only. Python's `not phase_data` would skip such an entry the same way as an empty list.
- Spacer widths are not modelled: spacers are 1 point wide, and only their height is modelled, in millimetres.
- The Android build script is not modelled: it does not touch report content.
