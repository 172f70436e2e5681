/** The per-row path for ordinary worksheets: every row is filled into its own copy
    of the form and written as `<identifier>.pdf`. */
module SimpleFill {
  import opened Outcomes
  import opened Dicts
  import opened Cells
  import opened Forms
  import opened FieldMaps

  /** The settings and sections one worksheet is filled with. */
  datatype SheetConfig = SheetConfig(
    identifier: string,          // the column naming each output file
    section: Dict<string>,       // the worksheet's column-to-field section
    form: Template,              // the PDF form
    defaults: Option<Defaults>)  // the worksheet's defaults file, when one exists

  /** One row: output name from the merged values, then `fill_form`. */
  function FillRow(cfg: SheetConfig, row: Record): (r: Result<Emission>)
    ensures Lookup(ValuesFor(row, cfg.defaults), cfg.identifier).None? ==> r == Failure(MissingKey(cfg.identifier))
  {
    var values := ValuesFor(row, cfg.defaults);
    var fm := FieldMapFor(cfg.section, cfg.defaults);
    match Lookup(values, cfg.identifier)
    case None => Failure(MissingKey(cfg.identifier))
    case Some(id) => FillForm(cfg.form, Show(id) + ".pdf", values, fm)
  }

  /** A row is written exactly when its merged values carry the identifier and the
      form can be filled from them; the file is named after the identifier's value
      and holds a fresh copy of the form filled once with the merged values and map. */
  lemma FillRowSpec(cfg: SheetConfig, row: Record)
    ensures var r := FillRow(cfg, row);
            var values := ValuesFor(row, cfg.defaults);
            var fm := FieldMapFor(cfg.section, cfg.defaults);
            && (r.Success? <==> Lookup(values, cfg.identifier).Some? && Fillable(cfg.form, values, fm))
            && (r.Success? ==>
                  && r.value.name == Show(Lookup(values, cfg.identifier).value) + ".pdf"
                  && r.value.doc.fills == [Fill(values, fm)]
                  && MadeFrom(r.value.doc, cfg.form))
  {
    var values := ValuesFor(row, cfg.defaults);
    if Lookup(values, cfg.identifier).Some? {
      FillFormSpec(cfg.form, Show(Lookup(values, cfg.identifier).value) + ".pdf", values,
                   FieldMapFor(cfg.section, cfg.defaults));
    }
  }

  /** All rows in order; the first failing row stops the run. */
  function SimplePath(cfg: SheetConfig, rows: seq<Record>): Outcome
  {
    if |rows| == 0 then Outcome([], None)
    else
      match FillRow(cfg, rows[0])
      case Failure(e) => Outcome([], Some(e))
      case Success(file) =>
        var rest := SimplePath(cfg, rows[1..]);
        Outcome([file] + rest.emitted, rest.error)
  }

  /** The run writes row i's file for every row before the first failing one, in
      order; it stops at the first failing row with that row's error, and otherwise
      writes one file per row. */
  lemma {:induction false} SimplePathSpec(cfg: SheetConfig, rows: seq<Record>)
    ensures var r := SimplePath(cfg, rows);
            && (r.error.None? ==> |r.emitted| == |rows|)
            && (r.error.Some? ==> |r.emitted| < |rows|
                                  && FillRow(cfg, rows[|r.emitted|]) == Failure(r.error.value))
            && (forall i :: 0 <= i < |r.emitted| ==> FillRow(cfg, rows[i]) == Success(r.emitted[i]))
  {
    if |rows| > 0 && FillRow(cfg, rows[0]).Success? {
      SimplePathSpec(cfg, rows[1..]);
      assert forall i :: 0 < i < |rows| ==> rows[1..][i - 1] == rows[i];
    }
  }
}
