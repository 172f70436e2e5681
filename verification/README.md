# FormFiller in Dafny

FormFiller reads spreadsheet rows and fills PDF forms from them. Each worksheet
has a configuration section that maps columns to form fields. An optional
defaults file per worksheet adds default values and mapping entries.

Ordinary worksheets are simple: every row becomes one `<identifier>.pdf`.

The "econ units" worksheet is handled by a batcher. It groups adjacent rows that
share an identifier:

- the first row of a group fills a base form;
- the following rows are packed four to a page into a second, attachment form;
- a group is written as `<name>.pdf` plus `<name>-A0.pdf`, `<name>-A1.pdf`, …;
- a group is written when the identifier changes, and once more after the last row.

This project models that core as pure functions over immutable data:

| file | module | what it holds |
|---|---|---|
| `outcomes.dfy` | `Outcomes` | `Option`; `Result`; the exceptions the code can raise |
| `text.dfy` | `Text` | substring test, `t[1:-1]`, `split(';')[0]`, ASCII `lower()`, decimal rendering of integers |
| `dicts.dfy` | `Dicts` | Python's insertion-ordered `dict` as a sequence of entries: lookup, `d[k] = v`, `{**a, **b}` |
| `cells.dfy` | `Cells` | cell values (text, integer, empty) and `str()` |
| `forms.dfy` | `Forms` | templates as pages of annotations; `update_form`, `fill_form`; output documents that record the fills applied to them |
| `fieldmaps.dfy` | `FieldMaps` | `invert_dict`, the default-overlay merges, the per-slot map over `;N` keys |
| `sheets.dfy` | `Sheets` | `get_rows` over an abstract grid of cells |
| `simplefill.dfy` | `SimpleFill` | the per-row path for ordinary worksheets |
| `econunits.dfy` | `EconUnits` | the batcher as a step function `ProcessRow`, folded by `Steps`, with the final flush in `Run` |
| `econproofs.dfy` | `EconUnitsProofs` | what a whole batch run writes, group by group |

Each output document records which fills produced it: the row values and the
field map of each fill. The predicate `MadeFrom(doc, form)` states that the
document's content is exactly `form` with those fills applied in order.

An exception stops a run, but files already written stay written. `Outcome`
therefore pairs the files written with the error, if any.

Three behaviours of the code are easy to misread; the model follows the code:

- **Defaults win on a collision.** The merges are `{**map, **defaultmap}` and
  `{**row, **defaultvalues}`, so a default entry overrides the worksheet's own
  entry for the same key (`FieldMaps.DefaultMapWins`, `FieldMaps.DefaultValuesWin`).
- **Files written before an exception stay written.** Each group's files are written
  as soon as the next group begins, so they survive a later error (`Outcome.emitted`).
- **A group of 1 + 4k rows gets no empty extra page.** The rollover fires only on the
  fifth extra row (`EconUnitsProofs.AttachmentSizes`, `EconUnitsProofs.GroupPages`).
- **Leading `'initvalue'` rows write nothing.** The batcher starts from the identifier
  `'initvalue'`, so rows carrying it before any other identifier are packed into an
  attachment page that is never written (`EconUnitsProofs.SentinelRunWritesNothing`,
  `EconUnitsProofs.RunGroups`).

## Model

| member | source | states |
|---|---|---|
| Text.Strip | Formfiller.py:72 | the field name is `/T` without its first and last character, and empty when `/T` is shorter than two |
| Text.BeforeFirst | Formfiller.py:276 | `key.split(';')[0]` is a prefix of the key containing no `;`, and it is followed by a `;` unless it is the whole key |
| Text.Lower | Formfiller.py:101 | lower-casing keeps the length, turns every ASCII capital into its own lower-case letter, and keeps every other character |
| Text.ContainsIffOccurs | Formfiller.py:74 | the `'Check Box' in key` test holds exactly when the marker occurs at some position of the key |
| Text.NatToString | Formfiller.py:237 | an attachment index is rendered as at least one decimal digit, with no leading zero |
| Text.ParseNatToString | Formfiller.py:237-238 | the decimal rendering of an index reads back as the same index |
| Cells.Show | Formfiller.py:185 | `'{}'.format(v)` shows text as it is, an empty cell as `None` (so an empty identifier gives `None.pdf`), and a whole number as decimal digits with a leading `-` exactly when it is negative |
| Cells.ShowIntInjective | Formfiller.py:185 | distinct whole-number identifiers are shown differently, so they name different files |
| Dicts.Lookup | Formfiller.py:73 | `key in mapping.keys()` fails exactly when no entry has the key |
| Dicts.LookupPut | Formfiller.py:105 | after `d[k] = v`, key k holds v and every other key is unchanged |
| Dicts.PutAllDistinct | Formfiller.py:117 | building a dict from pairs yields no duplicate key |
| Dicts.PutAllLast | Formfiller.py:117 | building a dict from pairs leaves each key with the value of its last pair |
| Dicts.MergePrecedence | Formfiller.py:178 | in `{**a, **b}` a key of b takes b's value, and every other key keeps a's value |
| Forms.FillAnnot | Formfiller.py:70-81 | only named widgets whose stripped name the map knows are touched. A checkbox gets `/Yes` on exactly `'yes'` and `/No` on exactly `'no'`, and is unchanged otherwise. A text field gets `str` of the cell. A mapped column missing from the row raises, for checkboxes too |
| Forms.FillAnnotsSpec | Formfiller.py:68-81 | a page fills exactly when no annotation lacks its column. Each annotation is then filled on its own, and the only error is a missing key |
| Forms.FillPagesSpec | Formfiller.py:67-81 | the pages fill exactly when every page has `/Annots` and every page's annotations fill. The page count and order are kept |
| Forms.FillTemplateSpec | Formfiller.py:67-82 | the fill loop succeeds exactly when the template is fillable from the row, and then returns the template with every annotation filled |
| Forms.UpdateForm | Formfiller.py:62-66 | with neither a template nor a target file, `update_form` raises |
| Forms.UpdateFormSpec | Formfiller.py:62-82 | `update_form` fills the given template when there is one, and otherwise a fresh copy of the target file. It succeeds exactly when that template is fillable |
| Forms.FillAnnotIdempotent | Formfiller.py:74-81 | filling an annotation a second time with the same row and map changes nothing |
| Forms.FillAnnotsIdempotent | Formfiller.py:68-81 | filling a page's annotations a second time changes nothing |
| Forms.FillPagesIdempotent | Formfiller.py:67-81 | filling all pages a second time changes nothing |
| Forms.FillTemplateIdempotent | Formfiller.py:67-82 | filling a filled template again with the same row and map returns it unchanged |
| Forms.FillForm | Formfiller.py:23-49 | `fill_form` writes under the given output name, and records one fill with the row and map |
| Forms.FillFormSpec | Formfiller.py:32-49 | `fill_form` writes a file exactly when the form is fillable from the row. The file is a fresh copy of the form filled by that row and map |
| FieldMaps.InvertDict | Formfiller.py:111-117 | the inverted dict has no duplicate key |
| FieldMaps.InvertDictLast | Formfiller.py:117 | a value maps back to the key of its last item, so the later key wins when values collide |
| FieldMaps.InvertDictAbsent | Formfiller.py:117 | a string that is no value of the dict is no key of the inverted dict |
| FieldMaps.InvertDictSound | Formfiller.py:117 | every entry of the inverted dict comes from the last item that has that value |
| FieldMaps.InvertDictInjective | Formfiller.py:111-117 | when keys and values are distinct, the inverted dict maps v to k exactly when the dict maps k to v |
| FieldMaps.ValuesForKeeps | Formfiller.py:263-266 | overlaying default values never drops a column of the row |
| FieldMaps.DefaultValuesWin | Formfiller.py:177-180 | in `{**row, **defaultvalues}` a default value wins over the row's value, and other columns keep the row's value |
| FieldMaps.DefaultMapWins | Formfiller.py:181-184 | in `{**map, **defaultmap}` a default entry wins over the section's entry for the same column |
| FieldMaps.FieldMapForSound | Formfiller.py:267-270 | each field of `final_map` maps to the column of the last merged entry naming that field |
| FieldMaps.SlotMap | Formfiller.py:276-278 | the slot field map has no duplicate key |
| FieldMaps.SlotMapLast | Formfiller.py:276-278 | only keys containing `;N` take part. A field maps to the prefix before the first `;` of its last such key |
| FieldMaps.SlotMapAbsent | Formfiller.py:276-278 | a field that no key of slot N names is not in the slot map |
| Sheets.HeaderName | Formfiller.py:99-103 | a text header is lower-cased, and any other header cell becomes `'extra data'` |
| Sheets.RecordOf | Formfiller.py:98-105 | a data row becomes a record without duplicate keys exactly when it is no wider than the header, and it raises otherwise |
| Sheets.Records | Formfiller.py:96-107 | all data rows convert exactly when none is wider than the header. There is then one record per row, each that row's record |
| Sheets.GetRows | Formfiller.py:96-108 | `get_rows` fails only on a data row wider than the header. Otherwise it returns one record per non-header row, each without duplicate keys |
| Sheets.GetRowsCell | Formfiller.py:96-108 | when no data row is wider than the header, `get_rows` returns one record per data row. Record i maps header j to cell j, and the later column wins on a repeated header |
| Sheets.GetRowsAbsent | Formfiller.py:96-108 | when no data row is wider than the header, a name heading none of a row's columns is absent from that row's record |
| SimpleFill.FillRow | Formfiller.py:185 | a row whose merged values lack the identifier raises a missing-key error |
| SimpleFill.FillRowSpec | Formfiller.py:175-186 | a row is written exactly when its merged values carry the identifier and the form is fillable from them. The file is `<identifier>.pdf`, and it holds the form filled once by the merged values and merged-then-inverted map |
| SimpleFill.SimplePathSpec | Formfiller.py:175-186 | every row before the first failing one is written in order. The run stops at the first failing row with that row's error, and otherwise writes one file per row |
| EconUnits.FillBase | Formfiller.py:259-273 | instance 0 fills a fresh base form from the merged values and base map. The output name is taken from the merged values, and nothing else changes |
| EconUnits.FillSlot | Formfiller.py:274-288 | instance 1 starts a fresh attachment page and later instances refill the open one. The slot uses the raw row and the slot map, and nothing else changes |
| EconUnits.ProcessRow | Formfiller.py:214-288 | a row without the identifier raises and writes nothing. After a successful row the invariant holds: counter within 0..4, `attachment_cnt` equal to the number of full pages, an open page exactly when the counter is positive, and that page holding that many rows. The identifier is also remembered |
| EconUnits.ProcessRowNewGroup | Formfiller.py:216-273 | a new identifier writes out the previous group and starts a group whose base form holds this row. It fails exactly when the base form is not fillable |
| EconUnits.ProcessRowSameGroup | Formfiller.py:218-288 | the same identifier writes nothing, and the row goes into the next slot, rolling over to a new page after the fourth. It fails exactly when that page (a fresh attachment form for slot 1, the open page otherwise) is not fillable from the raw row with the slot map |
| EconUnits.SlotStateMadeFrom | Formfiller.py:247-254 | rollover keeps every closed page and the open page made from the attachment form |
| EconUnits.FillBaseMadeFrom | Formfiller.py:271-272 | the base document is the base form filled by the row's merged values and map |
| EconUnits.FillSlotMadeFrom | Formfiller.py:280-288 | an attachment page stays the attachment form filled by its recorded slot fills |
| EconUnits.ProcessRowMadeFrom | Formfiller.py:259-288 | every row keeps each document equal to its form filled by its recorded fills |
| EconUnits.Steps | Formfiller.py:214-288 | the batcher invariant holds after every prefix of the rows |
| EconUnitsProofs.GroupHead | Formfiller.py:222-273 | the first row of a group writes out the previous group and leaves the state of a one-row group |
| EconUnitsProofs.ProgressFirstSlot | Formfiller.py:281-284 | a group's second row opens the first attachment page in slot 1 |
| EconUnitsProofs.ProgressNextSlot | Formfiller.py:285-288 | a row goes into the next free slot of the open page |
| EconUnitsProofs.ProgressRollover | Formfiller.py:247-254 | a row that finds four slots used closes the page and opens the next page in slot 1 |
| EconUnitsProofs.ProgressStep | Formfiller.py:247-288 | a continuing row advances the group state by exactly one row |
| EconUnitsProofs.GroupNext | Formfiller.py:218-288 | a row of the current group writes nothing and advances the group state by one row |
| EconUnitsProofs.GroupTail | Formfiller.py:214-288 | the remaining rows of a group write nothing and complete the group's state |
| EconUnitsProofs.RemainingSteps | Formfiller.py:214 | running a group's rows from row m on, one at a time, is the same as running the loop over the rows after m |
| EconUnitsProofs.GroupRun | Formfiller.py:214-288 | a whole group first writes out the previous group, then writes nothing, and leaves the group's complete state |
| EconUnitsProofs.GroupPages | Formfiller.py:247-288 | a group of n rows has ceil((n-1)/4) attachment pages. Page k holds rows 1+4k to 4+4k in slots 1, 2, … |
| EconUnitsProofs.FlushFiles | Formfiller.py:226-239 | a flush with a base form writes `<name>.pdf`, then page k as `<name>-A<k>.pdf`, contiguously from 0 |
| EconUnitsProofs.GroupFlush | Formfiller.py:226-239 | flushing a complete group writes exactly that group's files, with names, fills and forms |
| EconUnitsProofs.GroupFilesUnique | Formfiller.py:226-239 | the description of a group's files fixes them completely: two lists meeting it are equal |
| EconUnitsProofs.AttachmentSizes | Formfiller.py:247-254 | every page closed by rollover holds four rows, and the last page holds the remaining one to four. Four extra rows give one page, not two, and a single-row group writes only the base |
| EconUnitsProofs.StepsMadeFrom | Formfiller.py:259-288 | the whole loop keeps every document made from its form |
| EconUnitsProofs.StepsAppend | Formfiller.py:214 | the loop over `a + b` is the loop over `a` followed by the loop over `b` |
| EconUnitsProofs.StepsGroups | Formfiller.py:214-304 | over rows cut into groups, the loop plus the final flush writes the prior state's files, then each group's files |
| EconUnitsProofs.RunGroups | Formfiller.py:189-304 | a run without error over a prefix of `'initvalue'` rows and then maximal runs of equal identifier writes nothing for the prefix, then the files of each group in turn, the final group included. Each group's files meet the group description, which fixes them uniquely |
| EconUnitsProofs.GroupRows | Formfiller.py:214-218 | any rows carrying the identifier column cut into maximal runs of equal identifier |
| EconUnitsProofs.SplitRows | Formfiller.py:193-218 | any rows carrying the identifier column are a prefix of `'initvalue'` rows followed by maximal runs of equal identifier, so `RunGroups` covers every run without error |
| EconUnitsProofs.SentinelRunWritesNothing | Formfiller.py:193 | rows whose identifier is the initial `'initvalue'` never reach the base form, so a run made only of them writes no file, whether or not it raises |
| EconUnitsProofs.AttachmentNameInjective | Formfiller.py:237-238 | distinct attachment indices give distinct file names |
| EconUnitsProofs.FlushNamesDistinct | Formfiller.py:227-238 | the files written by one flush have pairwise distinct names |

## Left out

- `textboxmapper.py`: an interactive helper script (console input, PDF reading and writing) outside this core. It is not part of this model.
- PDF reading and writing through pdfrw: templates are given as values, and writing a file is an `Emission` of a name and a document. The output folder path is not modelled.
- Workbook loading through openpyxl: a worksheet is given as a grid of cell values.
- Configuration parsing (ConfigParser, the listing of map files, the defaults-file lookup): sections arrive as already-parsed dicts. ConfigParser's lower-casing of option names is therefore not modelled.
- Directory creation, logging and timestamps: these are side effects that do not affect which files are written or what they contain.
- Cell values other than text, whole numbers and empty cells (floats, booleans, dates): their `str()` rendering is not modelled.
- Text.Lower: lower-cases ASCII letters only, not the full Unicode case mapping of `str.lower()`.
- EconUnits.BatchState: `attachment_cnt` appears only in the invariant. It is only logged and never affects file names.
- Forms.FillTemplate: carries no ensures of its own. Its contract is `Forms.FillTemplateSpec`, which `Forms.FillPages` and `Forms.FillAnnots` also defer to, through `Forms.FillPagesSpec` and `Forms.FillAnnotsSpec`.
- Forms.UpdateForm: its ensures only covers the missing-target error. The success and fill guarantees are stated in `Forms.UpdateFormSpec`.
- Forms.FillForm: its ensures only covers the name and the recorded fill. Fillability and `MadeFrom` are stated in `Forms.FillFormSpec`.
- SimpleFill.FillRow: its ensures only covers the missing-identifier error. The rest is stated in `SimpleFill.FillRowSpec`.
- SimpleFill.SimplePath: its contract is stated in `SimpleFill.SimplePathSpec`.
- EconUnits.AttachmentFiles: its ensures only states the number of files. The name and content of each file are stated in `EconUnitsProofs.FlushFiles`.
- EconUnitsProofs.RunGroups: covers runs that raise no exception. For a run that raises, the model only states that files written before the failing row are kept, as `EconUnits.Run` returns them; which groups those are is not stated as a lemma.
- EconUnits.Run: carries no ensures of its own. What a run writes is stated in `EconUnitsProofs.RunGroups` (with `EconUnitsProofs.SplitRows` for the shape of the rows) and `EconUnitsProofs.SentinelRunWritesNothing`.
- EconUnits.Flush: carries no ensures of its own. Its files are stated in `EconUnitsProofs.FlushFiles`, `EconUnitsProofs.GroupFlush` and `EconUnitsProofs.FlushNamesDistinct`.
