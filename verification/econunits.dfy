/** The "econ units" batcher: one step per row of the worksheet, in order, carrying
    the loop variables from row to row. Rows are grouped by
    adjacency of their identifier: the first row of a group fills the base form, the
    following rows are packed four to a page into attachment forms, and a group's
    files are written when the identifier changes and once more after the last row. */
module EconUnits {
  import opened Outcomes
  import opened Text
  import opened Dicts
  import opened Cells
  import opened Forms
  import opened FieldMaps

  /** The parsed settings and sections the batcher consumes. */
  datatype UnitConfig = UnitConfig(
    identifier: string,          // settings.identifier: the grouping column
    baseSection: Dict<string>,   // the section named by settings.base_map
    unitSection: Dict<string>,   // the "econ units" section, keys suffixed `;N`
    form: Template,              // settings.pdf_form, the base form
    form2: Template,             // settings.pdf_form2, the attachment form
    defaults: Option<Defaults>)  // "econ units-defaults.ini", when it exists

  /** Rows an attachment page holds. */
  const Capacity := 4

  /** The identifier the batcher starts from, so a first row carrying it is taken
      for a continuation of an (empty) group. */
  const InitialIdentifier := VStr("initvalue")

  const InitialOutputName := VStr("If-you-see-this-its-error")

  /** The loop variables carried from row to row. */
  datatype BatchState = BatchState(
    instanceCnt: int,             // index of the last row within its group, folded to 1..4 on rollover
    attachmentCnt: int,           // attachment pages closed by rollover
    prevIdentifier: Value,        // identifier of the previous row
    base: Option<Document>,       // the group's filled base form
    newSlot: Option<Document>,    // the attachment page being packed
    unitTemplates: seq<Document>, // attachment pages already full
    outputName: Value)            // the name the group's files are written under

  function Initial(): BatchState
  {
    BatchState(0, 0, InitialIdentifier, None, None, [], InitialOutputName)
  }

  /** What holds between rows: the slot counter stays within a page, the attachment
      counter counts the full pages, a page is open exactly when the counter is
      positive and then holds that many rows, full pages hold four rows, and the base
      form holds one. */
  predicate Inv(cfg: UnitConfig, st: BatchState)
  {
    && 0 <= st.instanceCnt <= Capacity
    && st.attachmentCnt == |st.unitTemplates|
    && (st.newSlot.None? <==> st.instanceCnt == 0)
    && (st.newSlot.Some? ==> |st.newSlot.value.fills| == st.instanceCnt)
    && (forall k :: 0 <= k < |st.unitTemplates| ==> |st.unitTemplates[k].fills| == Capacity)
    && (st.base.Some? ==> |st.base.value.fills| == 1)
  }

  /** Every document of the state is its form filled by the fills it records: the
      base by the base form, the attachment pages by the attachment form. */
  predicate DocsMadeFrom(cfg: UnitConfig, st: BatchState)
  {
    && (st.base.Some? ==> MadeFrom(st.base.value, cfg.form))
    && (st.newSlot.Some? ==> MadeFrom(st.newSlot.value, cfg.form2))
    && (forall k :: 0 <= k < |st.unitTemplates| ==> MadeFrom(st.unitTemplates[k], cfg.form2))
  }

  lemma InitialInv(cfg: UnitConfig)
    ensures Inv(cfg, Initial())
  {
  }

  /** The base field map: the base section overlaid with the default map, inverted. */
  function BaseMap(cfg: UnitConfig): FieldMap
  {
    FieldMapFor(cfg.baseSection, cfg.defaults)
  }

  /** The fill the base form receives from the first row of a group. */
  function BaseFill(cfg: UnitConfig, row: Record): Fill
  {
    Fill(ValuesFor(row, cfg.defaults), BaseMap(cfg))
  }

  /** The fill slot `n` of an attachment page receives: the raw row (no default
      values) with the slot's own field map (no default map). */
  function SlotFill(cfg: UnitConfig, row: Record, n: nat): Fill
  {
    Fill(row, SlotMap(cfg.unitSection, n))
  }

  function BaseName(name: string): string
  {
    name + ".pdf"
  }

  function AttachmentName(name: string, i: nat): string
  {
    name + "-A" + NatToString(i) + ".pdf"
  }

  /** All attachment pages of the group: the full ones, then the open one. */
  function Pages(st: BatchState): seq<Document>
  {
    st.unitTemplates + if st.newSlot.Some? then [st.newSlot.value] else []
  }

  /** The files written for `pages` under `name`, numbered from 0. */
  function AttachmentFiles(name: string, pages: seq<Document>): (r: seq<Emission>)
    ensures |r| == |pages|
  {
    seq(|pages|, i requires 0 <= i < |pages| => Emission(AttachmentName(name, i), pages[i]))
  }

  /** Writing out the group: nothing when no base form was filled, otherwise
      `<name>.pdf` and then `<name>-A<i>.pdf` for every attachment page. */
  function Flush(st: BatchState): seq<Emission>
  {
    if st.base.None? then []
    else [Emission(BaseName(Show(st.outputName)), st.base.value)]
         + AttachmentFiles(Show(st.outputName), Pages(st))
  }

  /** The files of one row, and the state for the next row or the exception. */
  datatype StepResult = Step(emits: seq<Emission>, next: Result<BatchState>)

  /** Instance 0: fill a fresh copy of the base form from the merged values and take
      the group's output name from the merged values. */
  function FillBase(cfg: UnitConfig, st: BatchState, row: Record): (r: Result<BatchState>)
    ensures r.Success? ==> && r.value == st.(base := r.value.base, outputName := r.value.outputName)
                           && r.value.base.Some?
                           && r.value.base.value.fills == [BaseFill(cfg, row)]
                           && Lookup(ValuesFor(row, cfg.defaults), cfg.identifier) == Some(r.value.outputName)
  {
    var values := ValuesFor(row, cfg.defaults);
    match UpdateForm(values, BaseMap(cfg), Some(cfg.form), None)
    case Failure(e) => Failure(e)
    case Success(t) =>
      match Lookup(values, cfg.identifier)
      case None => Failure(MissingKey(cfg.identifier))
      case Some(name) =>
        Success(st.(base := Some(Document(t, [BaseFill(cfg, row)])), outputName := name))
  }

  /** Instance 1..4: fill slot `instanceCnt` of a fresh attachment page (instance 1)
      or of the open one. The slot uses the raw row and the slot's own map. */
  function FillSlot(cfg: UnitConfig, st: BatchState, row: Record): (r: Result<BatchState>)
    requires 1 <= st.instanceCnt
    requires st.instanceCnt > 1 ==> st.newSlot.Some?
    ensures r.Success? ==> && r.value.newSlot.Some?
                           && r.value == st.(newSlot := r.value.newSlot)
                           && r.value.newSlot.value.fills ==
                                (if st.instanceCnt == 1 then [] else st.newSlot.value.fills)
                                + [SlotFill(cfg, row, st.instanceCnt)]
  {
    var fill := SlotFill(cfg, row, st.instanceCnt);
    if st.instanceCnt == 1 then
      match UpdateForm(row, fill.fieldMap, Some(cfg.form2), None)
      case Failure(e) => Failure(e)
      case Success(t) => Success(st.(newSlot := Some(Document(t, [fill]))))
    else
      match UpdateForm(row, fill.fieldMap, None, Some(st.newSlot.value.pdf))
      case Failure(e) => Failure(e)
      case Success(t) => Success(st.(newSlot := Some(Document(t, st.newSlot.value.fills + [fill]))))
  }

  /** The state after the group-boundary test: the same identifier
      advances the instance counter, a different one starts an empty group. */
  function Advance(st: BatchState, id: Value): BatchState
  {
    if id == st.prevIdentifier then st.(instanceCnt := st.instanceCnt + 1)
    else st.(instanceCnt := 0, attachmentCnt := 0, base := None, unitTemplates := [], newSlot := None,
             prevIdentifier := id)
  }

  /** The state after the rollover test: a fifth extra row closes the
      open page and starts the next one at instance 1. */
  function Rollover(st: BatchState): BatchState
    requires st.instanceCnt > Capacity ==> st.newSlot.Some?
  {
    if st.instanceCnt > Capacity then
      st.(unitTemplates := st.unitTemplates + [st.newSlot.value], newSlot := None,
          attachmentCnt := st.attachmentCnt + 1, instanceCnt := 1)
    else st
  }

  /** The row's identifier, if it has the column. */
  function RowId(cfg: UnitConfig, row: Record): Option<Value>
  {
    Lookup(row, cfg.identifier)
  }

  /** `s` is the state right after `row` opened a new group. */
  predicate StartsGroup(cfg: UnitConfig, row: Record, s: BatchState)
  {
    && s.instanceCnt == 0
    && s.unitTemplates == []
    && s.newSlot == None
    && s.base.Some?
    && s.base.value.fills == [BaseFill(cfg, row)]
    && Lookup(ValuesFor(row, cfg.defaults), cfg.identifier) == Some(s.outputName)
  }

  /** `s` is the state after `row` continued the group of `st`: it went into the next
      slot of the open page, or onto slot 1 of a new page once four slots were used. */
  predicate ContinuesGroup(cfg: UnitConfig, st: BatchState, row: Record, s: BatchState)
  {
    && s.base == st.base
    && s.outputName == st.outputName
    && s.instanceCnt == st.instanceCnt % Capacity + 1
    && s.newSlot.Some?
    && if st.instanceCnt < Capacity then
         && s.unitTemplates == st.unitTemplates
         && s.newSlot.value.fills == (if st.newSlot.Some? then st.newSlot.value.fills else [])
                                     + [SlotFill(cfg, row, s.instanceCnt)]
       else
         && st.newSlot.Some?
         && s.unitTemplates == st.unitTemplates + [st.newSlot.value]
         && s.newSlot.value.fills == [SlotFill(cfg, row, 1)]
  }

  /** One row of the loop: the group-boundary test, flushing the previous
      group on a new identifier, then the rollover test, then the fill of the base
      form or of a slot. A row without the identifier column raises. */
  function ProcessRow(cfg: UnitConfig, st: BatchState, row: Record): (r: StepResult)
    requires Inv(cfg, st)
    ensures RowId(cfg, row).None? ==> r == Step([], Failure(MissingKey(cfg.identifier)))
    ensures r.next.Success? ==> && Inv(cfg, r.next.value)
                                && RowId(cfg, row) == Some(r.next.value.prevIdentifier)
  {
    match Lookup(row, cfg.identifier)
    case None => Step([], Failure(MissingKey(cfg.identifier)))
    case Some(id) =>
      var emits := if id == st.prevIdentifier then [] else Flush(st);
      var s := Rollover(Advance(st, id));
      if s.instanceCnt == 0 then Step(emits, FillBase(cfg, s, row))
      else Step(emits, FillSlot(cfg, s, row))
  }

  /** The base form is filled from a fresh copy of the base form. */
  lemma FillBaseMadeFrom(cfg: UnitConfig, st: BatchState, row: Record)
    requires FillBase(cfg, st, row).Success?
    ensures MadeFrom(FillBase(cfg, st, row).value.base.value, cfg.form)
  {
    var values := ValuesFor(row, cfg.defaults);
    var t := UpdateForm(values, BaseMap(cfg), Some(cfg.form), None).value;
    MadeFromFresh(cfg.form, BaseFill(cfg, row), t);
  }

  /** Slot 1 fills a fresh copy of the attachment form and later slots fill the open
      page again, so the page stays the attachment form filled by its recorded fills. */
  lemma FillSlotMadeFrom(cfg: UnitConfig, st: BatchState, row: Record)
    requires 1 <= st.instanceCnt
    requires st.instanceCnt > 1 ==> st.newSlot.Some? && MadeFrom(st.newSlot.value, cfg.form2)
    requires FillSlot(cfg, st, row).Success?
    ensures MadeFrom(FillSlot(cfg, st, row).value.newSlot.value, cfg.form2)
  {
    var fill := SlotFill(cfg, row, st.instanceCnt);
    if st.instanceCnt == 1 {
      var t := UpdateForm(row, fill.fieldMap, Some(cfg.form2), None).value;
      MadeFromFresh(cfg.form2, fill, t);
    } else {
      var t := UpdateForm(row, fill.fieldMap, None, Some(st.newSlot.value.pdf)).value;
      MadeFromExtend(st.newSlot.value, cfg.form2, fill, t);
    }
  }

  /** Every row keeps each document equal to its form filled by its recorded fills. */
  lemma ProcessRowMadeFrom(cfg: UnitConfig, st: BatchState, row: Record)
    requires Inv(cfg, st) && DocsMadeFrom(cfg, st)
    requires ProcessRow(cfg, st, row).next.Success?
    ensures DocsMadeFrom(cfg, ProcessRow(cfg, st, row).next.value)
  {
    var id := Lookup(row, cfg.identifier).value;
    var s := Rollover(Advance(st, id));
    if s.instanceCnt == 0 {
      assert ProcessRow(cfg, st, row).next == FillBase(cfg, s, row);
      FillBaseMadeFrom(cfg, s, row);
    } else {
      assert ProcessRow(cfg, st, row).next == FillSlot(cfg, s, row);
      SlotStateMadeFrom(cfg, st, id);
      FillSlotMadeFrom(cfg, s, row);
    }
  }

  /** Before a slot fill, the full pages and the open page are still made from the
      attachment form. */
  lemma SlotStateMadeFrom(cfg: UnitConfig, st: BatchState, id: Value)
    requires Inv(cfg, st) && DocsMadeFrom(cfg, st)
    requires Rollover(Advance(st, id)).instanceCnt != 0
    ensures var s := Rollover(Advance(st, id));
            && (s.instanceCnt > 1 ==> s.newSlot.Some? && MadeFrom(s.newSlot.value, cfg.form2))
            && (forall k :: 0 <= k < |s.unitTemplates| ==> MadeFrom(s.unitTemplates[k], cfg.form2))
            && (s.base.Some? ==> MadeFrom(s.base.value, cfg.form))
  {
    var s := Rollover(Advance(st, id));
    if st.instanceCnt == Capacity {
      assert forall k :: 0 <= k < |s.unitTemplates| ==>
        s.unitTemplates[k] == if k < |st.unitTemplates| then st.unitTemplates[k] else st.newSlot.value;
    }
  }

  /** A row with a new identifier writes out the previous group and opens a new one
      whose base form it fills; it fails exactly when the base form cannot be filled. */
  lemma ProcessRowNewGroup(cfg: UnitConfig, st: BatchState, row: Record)
    requires Inv(cfg, st)
    requires RowId(cfg, row).Some? && RowId(cfg, row).value != st.prevIdentifier
    ensures ProcessRow(cfg, st, row).emits == Flush(st)
    ensures ProcessRow(cfg, st, row).next.Success? <==>
              Fillable(cfg.form, ValuesFor(row, cfg.defaults), BaseMap(cfg))
    ensures ProcessRow(cfg, st, row).next.Success? ==> StartsGroup(cfg, row, ProcessRow(cfg, st, row).next.value)
  {
    ValuesForKeeps(row, cfg.defaults, cfg.identifier);
    FillTemplateSpec(cfg.form, ValuesFor(row, cfg.defaults), BaseMap(cfg));
  }

  /** A row with the previous row's identifier writes nothing and goes into the next
      slot, rolling over to a new attachment page after the fourth. It fails exactly
      when the page it goes onto (a fresh attachment form for slot 1, the open page
      otherwise) cannot be filled from the raw row with the slot's map. */
  lemma ProcessRowSameGroup(cfg: UnitConfig, st: BatchState, row: Record)
    requires Inv(cfg, st)
    requires RowId(cfg, row) == Some(st.prevIdentifier)
    ensures ProcessRow(cfg, st, row).emits == []
    ensures var n := st.instanceCnt % Capacity + 1;
            var page := if n == 1 then cfg.form2 else st.newSlot.value.pdf;
            ProcessRow(cfg, st, row).next.Success? <==> Fillable(page, row, SlotMap(cfg.unitSection, n))
    ensures ProcessRow(cfg, st, row).next.Success? ==>
              ContinuesGroup(cfg, st, row, ProcessRow(cfg, st, row).next.value)
  {
    var n := st.instanceCnt % Capacity + 1;
    FillTemplateSpec(if n == 1 then cfg.form2 else st.newSlot.value.pdf, row, SlotMap(cfg.unitSection, n));
  }

  /** The loop over `rows` from state `st`: the files written along the way and the
      state after the last row, or the exception of the first failing row. */
  function Steps(cfg: UnitConfig, st: BatchState, rows: seq<Record>): (r: StepResult)
    requires Inv(cfg, st)
    ensures r.next.Success? ==> Inv(cfg, r.next.value)
    decreases |rows|
  {
    if |rows| == 0 then Step([], Success(st))
    else
      var first := ProcessRow(cfg, st, rows[0]);
      match first.next
      case Failure(e) => first
      case Success(s) =>
        var rest := Steps(cfg, s, rows[1..]);
        Step(first.emits + rest.emits, rest.next)
  }

  /** The whole "econ units" worksheet: the loop, then the final flush of the last
      group. An exception ends the run but keeps the files already written. */
  function Run(cfg: UnitConfig, rows: seq<Record>): Outcome
  {
    InitialInv(cfg);
    var r := Steps(cfg, Initial(), rows);
    match r.next
    case Failure(e) => Outcome(r.emits, Some(e))
    case Success(last) => Outcome(r.emits + Flush(last), None)
  }
}
