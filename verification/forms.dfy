/** The form-fill primitive: a PDF template as pages of annotations, and the walk
    that overwrites the checkbox state or text value of every widget whose field
    name the field map knows (Formfiller.py `update_form` and the identical loop
    of `fill_form`). */
module Forms {
  import opened Outcomes
  import opened Text
  import opened Dicts
  import opened Cells

  /** One spreadsheet row: column name to cell value. */
  type Record = Dict<Value>

  /** Field name in the PDF to column name in the row. */
  type FieldMap = Dict<string>

  /** An annotation of a page: its /Subtype, its /T (the quoted field name, if any),
      its /AS (checkbox state) and its /V (text value). */
  datatype Annot = Annot(subtype: string, title: Option<string>,
                         appearance: Option<string>, fieldValue: Option<string>)

  /** A page; `annots` is None when the page has no /Annots entry. */
  datatype Page = Page(annots: Option<seq<Annot>>)

  datatype Template = Template(pages: seq<Page>)

  const WidgetSubtype := "/Widget"
  const CheckBoxMarker := "Check Box"
  const Yes := "yes"
  const No := "no"
  const YesState := "/Yes"
  const NoState := "/No"

  /** A widget annotation whose /T is present and non-empty. */
  predicate IsNamedWidget(a: Annot)
  {
    a.subtype == WidgetSubtype && a.title.Some? && |a.title.value| > 0
  }

  /** The field name: /T without its surrounding delimiters. */
  function FieldKey(a: Annot): string
    requires IsNamedWidget(a)
  {
    Strip(a.title.value)
  }

  /** The annotation is one the field map asks to fill. */
  predicate Targeted(a: Annot, fm: FieldMap)
  {
    IsNamedWidget(a) && Lookup(fm, FieldKey(a)).Some?
  }

  function ColumnOf(a: Annot, fm: FieldMap): string
    requires Targeted(a, fm)
  {
    Lookup(fm, FieldKey(a)).value
  }

  /** The annotation is targeted but the row has no value for its column. */
  predicate LacksColumn(a: Annot, row: Record, fm: FieldMap)
  {
    Targeted(a, fm) && Lookup(row, ColumnOf(a, fm)).None?
  }

  function CellFor(a: Annot, row: Record, fm: FieldMap): Value
    requires Targeted(a, fm) && !LacksColumn(a, row, fm)
  {
    Lookup(row, ColumnOf(a, fm)).value
  }

  predicate IsCheckBox(a: Annot)
    requires IsNamedWidget(a)
  {
    Contains(FieldKey(a), CheckBoxMarker)
  }

  /** Fills one annotation. */
  function FillAnnot(a: Annot, row: Record, fm: FieldMap): (r: Result<Annot>)
    ensures r.Failure? <==> LacksColumn(a, row, fm)
    ensures r.Failure? ==> r.error == MissingKey(ColumnOf(a, fm))
    ensures !Targeted(a, fm) ==> r == Success(a)
    ensures r.Success? && Targeted(a, fm) && IsCheckBox(a) ==>
              && (CellFor(a, row, fm) == VStr(Yes) ==> r.value == a.(appearance := Some(YesState)))
              && (CellFor(a, row, fm) == VStr(No) ==> r.value == a.(appearance := Some(NoState)))
              && (CellFor(a, row, fm) !in {VStr(Yes), VStr(No)} ==> r.value == a)
    ensures r.Success? && Targeted(a, fm) && !IsCheckBox(a) ==>
              r.value == a.(fieldValue := Some(Show(CellFor(a, row, fm))))
  {
    if !IsNamedWidget(a) then Success(a)
    else
      match Lookup(fm, FieldKey(a))
      case None => Success(a)
      case Some(column) =>
        match Lookup(row, column)
        case None => Failure(MissingKey(column))
        case Some(cell) =>
          if Contains(FieldKey(a), CheckBoxMarker) then
            if cell == VStr(Yes) then Success(a.(appearance := Some(YesState)))
            else if cell == VStr(No) then Success(a.(appearance := Some(NoState)))
            else Success(a)
          else Success(a.(fieldValue := Some(Show(cell))))
  }

  /** Every annotation of a page can be filled from the row. */
  predicate AnnotsFillable(annots: seq<Annot>, row: Record, fm: FieldMap)
  {
    forall j :: 0 <= j < |annots| ==> !LacksColumn(annots[j], row, fm)
  }

  /** `annots'` is `annots` with every annotation filled on its own. */
  predicate AnnotsFilledFrom(annots: seq<Annot>, annots': seq<Annot>, row: Record, fm: FieldMap)
  {
    |annots'| == |annots|
    && forall j :: 0 <= j < |annots| ==> FillAnnot(annots[j], row, fm) == Success(annots'[j])
  }

  /** The inner loop over one page's annotations; the first failure aborts. */
  function FillAnnots(annots: seq<Annot>, row: Record, fm: FieldMap): Result<seq<Annot>>
  {
    if |annots| == 0 then Success([])
    else
      match FillAnnot(annots[0], row, fm)
      case Failure(e) => Failure(e)
      case Success(a) =>
        match FillAnnots(annots[1..], row, fm)
        case Failure(e) => Failure(e)
        case Success(rest) => Success([a] + rest)
  }

  /** A page's annotations fill exactly when none lacks its column, each one on its
      own; the only error is a missing column. */
  lemma {:induction false} FillAnnotsSpec(annots: seq<Annot>, row: Record, fm: FieldMap)
    ensures var r := FillAnnots(annots, row, fm);
            && (r.Success? <==> AnnotsFillable(annots, row, fm))
            && (r.Success? ==> AnnotsFilledFrom(annots, r.value, row, fm))
            && (r.Failure? ==> r.error.MissingKey?)
  {
    if |annots| > 0 {
      FillAnnotsSpec(annots[1..], row, fm);
      assert forall j :: 0 < j < |annots| ==> annots[1..][j - 1] == annots[j];
    }
  }

  /** Every page has an /Annots entry and each of its annotations can be filled. */
  predicate Fillable(t: Template, row: Record, fm: FieldMap)
  {
    forall p :: 0 <= p < |t.pages| ==>
      t.pages[p].annots.Some? && AnnotsFillable(t.pages[p].annots.value, row, fm)
  }

  /** `t'` has the pages of `t`, each with its annotations filled one by one. */
  predicate FilledFrom(t: Template, t': Template, row: Record, fm: FieldMap)
  {
    |t'.pages| == |t.pages|
    && forall p :: 0 <= p < |t.pages| ==>
         t.pages[p].annots.Some? && t'.pages[p].annots.Some?
         && AnnotsFilledFrom(t.pages[p].annots.value, t'.pages[p].annots.value, row, fm)
  }

  function FillPages(pages: seq<Page>, row: Record, fm: FieldMap): Result<seq<Page>>
  {
    if |pages| == 0 then Success([])
    else if pages[0].annots.None? then Failure(PageWithoutAnnots)
    else
      match FillAnnots(pages[0].annots.value, row, fm)
      case Failure(e) => Failure(e)
      case Success(annots) =>
        match FillPages(pages[1..], row, fm)
        case Failure(e) => Failure(e)
        case Success(rest) => Success([Page(Some(annots))] + rest)
  }

  /** The pages fill exactly when every page has annotations and each page's
      annotations fill; the filled pages keep their number and order. */
  lemma {:induction false} FillPagesSpec(pages: seq<Page>, row: Record, fm: FieldMap)
    ensures var r := FillPages(pages, row, fm);
            && (r.Success? <==> Fillable(Template(pages), row, fm))
            && (r.Success? ==> FilledFrom(Template(pages), Template(r.value), row, fm))
  {
    if |pages| > 0 && pages[0].annots.Some? {
      FillAnnotsSpec(pages[0].annots.value, row, fm);
      FillPagesSpec(pages[1..], row, fm);
      assert forall p :: 0 < p < |pages| ==> pages[1..][p - 1] == pages[p];
    }
  }

  /** The fill loop over all pages of a template. */
  function FillTemplate(t: Template, row: Record, fm: FieldMap): Result<Template>
  {
    match FillPages(t.pages, row, fm)
    case Failure(e) => Failure(e)
    case Success(pages) => Success(Template(pages))
  }

  /** The fill loop over all pages succeeds exactly when every page has annotations
      and no targeted field's column is missing from the row; then every annotation
      is filled independently and the page structure is kept. */
  lemma FillTemplateSpec(t: Template, row: Record, fm: FieldMap)
    ensures FillTemplate(t, row, fm).Success? <==> Fillable(t, row, fm)
    ensures FillTemplate(t, row, fm).Success? ==> FilledFrom(t, FillTemplate(t, row, fm).value, row, fm)
  {
    FillPagesSpec(t.pages, row, fm);
    assert Template(t.pages) == t;
  }

  /** `update_form`: fills the given template, or else a fresh copy of the target
      file; with neither it raises. */
  function UpdateForm(row: Record, fm: FieldMap, targetfile: Option<Template>,
                      template: Option<Template>): (r: Result<Template>)
    ensures template.None? && targetfile.None? ==> r == Failure(NoTargetFile)
  {
    if template.Some? then FillTemplate(template.value, row, fm)
    else if targetfile.Some? then FillTemplate(targetfile.value, row, fm)
    else Failure(NoTargetFile)
  }

  /** `update_form` fills the given template when there is one and the target file
      otherwise, with the guarantees of the fill loop. */
  lemma UpdateFormSpec(row: Record, fm: FieldMap, targetfile: Option<Template>, template: Option<Template>)
    ensures var r := UpdateForm(row, fm, targetfile, template);
            && (r.Success? <==> (template.Some? && Fillable(template.value, row, fm))
                                || (template.None? && targetfile.Some? && Fillable(targetfile.value, row, fm)))
            && (r.Success? ==> FilledFrom(if template.Some? then template.value else targetfile.value, r.value, row, fm))
  {
    if template.Some? { FillTemplateSpec(template.value, row, fm); }
    else if targetfile.Some? { FillTemplateSpec(targetfile.value, row, fm); }
  }

  lemma {:induction false} FillAnnotIdempotent(a: Annot, row: Record, fm: FieldMap)
    requires FillAnnot(a, row, fm).Success?
    ensures FillAnnot(FillAnnot(a, row, fm).value, row, fm) == FillAnnot(a, row, fm)
  {
  }

  lemma {:induction false} FillAnnotsIdempotent(annots: seq<Annot>, row: Record, fm: FieldMap)
    requires FillAnnots(annots, row, fm).Success?
    ensures FillAnnots(FillAnnots(annots, row, fm).value, row, fm) == FillAnnots(annots, row, fm)
  {
    if |annots| > 0 {
      var r := FillAnnots(annots, row, fm).value;
      FillAnnotsSpec(annots, row, fm);
      FillAnnotIdempotent(annots[0], row, fm);
      FillAnnotsIdempotent(annots[1..], row, fm);
      assert r[1..] == FillAnnots(annots[1..], row, fm).value;
    }
  }

  lemma {:induction false} FillPagesIdempotent(pages: seq<Page>, row: Record, fm: FieldMap)
    requires FillPages(pages, row, fm).Success?
    ensures FillPages(FillPages(pages, row, fm).value, row, fm) == FillPages(pages, row, fm)
  {
    if |pages| > 0 {
      var r := FillPages(pages, row, fm).value;
      FillPagesSpec(pages, row, fm);
      FillAnnotsIdempotent(pages[0].annots.value, row, fm);
      FillPagesIdempotent(pages[1..], row, fm);
      assert r[1..] == FillPages(pages[1..], row, fm).value;
    }
  }

  /** Filling a filled template again with the same row and map changes nothing. */
  lemma FillTemplateIdempotent(t: Template, row: Record, fm: FieldMap)
    requires FillTemplate(t, row, fm).Success?
    ensures FillTemplate(FillTemplate(t, row, fm).value, row, fm) == FillTemplate(t, row, fm)
  {
    FillPagesIdempotent(t.pages, row, fm);
  }

  /** One application of the fill primitive: the values and the field map used. */
  datatype Fill = Fill(values: Record, fieldMap: FieldMap)

  /** An output document: the filled template and the fills that produced it. */
  datatype Document = Document(pdf: Template, fills: seq<Fill>)

  /** A file written to the output folder. */
  datatype Emission = Emission(name: string, doc: Document)

  /** What a batch run leaves behind: the files written, in order, and the exception
      that stopped the run, if any (files written before it stay written). */
  datatype Outcome = Outcome(emitted: seq<Emission>, error: Option<Error>)

  /** Applies the fills in order to a fresh copy of `origin`. */
  function ApplyFills(origin: Template, fills: seq<Fill>): Result<Template>
  {
    if |fills| == 0 then Success(origin)
    else
      match ApplyFills(origin, fills[..|fills| - 1])
      case Failure(e) => Failure(e)
      case Success(t) => FillTemplate(t, fills[|fills| - 1].values, fills[|fills| - 1].fieldMap)
  }

  /** The document's content is exactly `origin` filled by its recorded fills. */
  predicate MadeFrom(doc: Document, origin: Template)
  {
    ApplyFills(origin, doc.fills) == Success(doc.pdf)
  }

  /** A fresh copy of `origin` filled once is made from `origin` by that fill. */
  lemma MadeFromFresh(origin: Template, f: Fill, t: Template)
    requires FillTemplate(origin, f.values, f.fieldMap) == Success(t)
    ensures MadeFrom(Document(t, [f]), origin)
  {
    assert [f][..0] == [];
  }

  /** Filling a document again extends its record of fills by that fill. */
  lemma MadeFromExtend(doc: Document, origin: Template, f: Fill, t: Template)
    requires FillTemplate(doc.pdf, f.values, f.fieldMap) == Success(t)
    ensures MadeFrom(doc, origin) ==> MadeFrom(Document(t, doc.fills + [f]), origin)
  {
    assert (doc.fills + [f])[..|doc.fills|] == doc.fills;
  }

  /** `fill_form`: fills a fresh copy of the target file and writes it under `outputfile`. */
  function FillForm(targetfile: Template, outputfile: string, row: Record, fm: FieldMap): (r: Result<Emission>)
    ensures r.Success? ==> r.value.name == outputfile && r.value.doc.fills == [Fill(row, fm)]
  {
    match FillTemplate(targetfile, row, fm)
    case Failure(e) => Failure(e)
    case Success(t) => Success(Emission(outputfile, Document(t, [Fill(row, fm)])))
  }

  /** `fill_form` writes a file exactly when the target file can be filled from the
      row; the file is a fresh copy of the target filled once by the row and map. */
  lemma FillFormSpec(targetfile: Template, outputfile: string, row: Record, fm: FieldMap)
    ensures var r := FillForm(targetfile, outputfile, row, fm);
            && (r.Success? <==> Fillable(targetfile, row, fm))
            && (r.Success? ==> MadeFrom(r.value.doc, targetfile)
                               && FilledFrom(targetfile, r.value.doc.pdf, row, fm))
  {
    FillTemplateSpec(targetfile, row, fm);
    if FillTemplate(targetfile, row, fm).Success? {
      MadeFromFresh(targetfile, Fill(row, fm), FillTemplate(targetfile, row, fm).value);
    }
  }
}
