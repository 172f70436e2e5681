/** What the "econ units" batcher produces, proved from its step function: the
    files of one group (names, counts, page contents), the files of a whole run
    as the concatenation of its groups' files, the "initvalue" quirk, and the
    distinctness of the names written in one flush. */
module EconUnitsProofs {
  import opened Outcomes
  import opened Text
  import opened Dicts
  import opened Cells
  import opened Forms
  import opened FieldMaps
  import opened EconUnits

  /** ceil(k / 4): the attachment pages needed for `k` extra rows. */
  function Ceil4(k: nat): nat
  {
    (k + 3) / 4
  }

  function Min(a: int, b: int): int
  {
    if a <= b then a else b
  }

  /** The fills of an attachment page packed with the rows `rs`: slot j+1 from rs[j]. */
  function SlotFills(cfg: UnitConfig, rs: seq<Record>): (r: seq<Fill>)
    ensures |r| == |rs|
  {
    seq(|rs|, j requires 0 <= j < |rs| => SlotFill(cfg, rs[j], j + 1))
  }

  /** The rows of attachment page `k` of group `g`: rows 1+4k .. 4+4k, as far as `g` goes. */
  function PageRows(g: seq<Record>, k: nat): seq<Record>
    requires 1 + 4 * k <= |g|
  {
    g[1 + 4 * k .. Min(|g|, 5 + 4 * k)]
  }

  /** Every row of `g` carries identifier `id`. */
  predicate HasId(cfg: UnitConfig, g: seq<Record>, id: Value)
  {
    forall i {:trigger RowId(cfg, g[i])} :: 0 <= i < |g| ==> RowId(cfg, g[i]) == Some(id)
  }

  /** `s` is the state after the first `m` rows of group `g` (identifier `id`). */
  predicate GroupProgress(cfg: UnitConfig, g: seq<Record>, id: Value, m: int, s: BatchState)
  {
    && 1 <= m <= |g|
    && s.prevIdentifier == id
    && s.base.Some?
    && s.base.value.fills == [BaseFill(cfg, g[0])]
    && Lookup(ValuesFor(g[0], cfg.defaults), cfg.identifier) == Some(s.outputName)
    && s.instanceCnt == (if m == 1 then 0 else (m - 2) % 4 + 1)
    && |s.unitTemplates| == (if m == 1 then 0 else (m - 2) / 4)
    && (forall k :: 0 <= k < |s.unitTemplates| ==>
          5 + 4 * k <= m && s.unitTemplates[k].fills == SlotFills(cfg, g[1 + 4 * k .. 5 + 4 * k]))
    && (m >= 2 ==> && s.newSlot.Some?
                   && 1 + 4 * |s.unitTemplates| <= m
                   && s.newSlot.value.fills == SlotFills(cfg, g[1 + 4 * |s.unitTemplates| .. m]))
  }

  /** The files of one group as the source writes them: `<name>.pdf` holding the
      first row, then `<name>-A<k>.pdf` for k = 0, 1, ... holding four extra rows
      each, the last one the remainder; every document is its form filled by the
      fills it records. */
  predicate GroupFilesOk(cfg: UnitConfig, g: seq<Record>, es: seq<Emission>)
  {
    && |g| >= 1
    && Lookup(ValuesFor(g[0], cfg.defaults), cfg.identifier).Some?
    && var name := Show(Lookup(ValuesFor(g[0], cfg.defaults), cfg.identifier).value);
       && |es| == 1 + Ceil4(|g| - 1)
       && es[0].name == BaseName(name)
       && es[0].doc.fills == [BaseFill(cfg, g[0])]
       && MadeFrom(es[0].doc, cfg.form)
       && forall k :: 0 <= k < |es| - 1 ==>
            && 1 + 4 * k <= |g|
            && es[k + 1].name == AttachmentName(name, k)
            && es[k + 1].doc.fills == SlotFills(cfg, PageRows(g, k))
            && MadeFrom(es[k + 1].doc, cfg.form2)
  }

  lemma SlotFillsSnoc(cfg: UnitConfig, g: seq<Record>, a: int, m: int)
    requires 0 <= a <= m < |g|
    ensures SlotFills(cfg, g[a..m + 1]) == SlotFills(cfg, g[a..m]) + [SlotFill(cfg, g[m], m - a + 1)]
  {
    assert g[a..m + 1] == g[a..m] + [g[m]];
  }

  /** The first row of a group leaves the state of a one-row group. */
  lemma GroupHead(cfg: UnitConfig, st: BatchState, g: seq<Record>, id: Value)
    requires Inv(cfg, st)
    requires |g| >= 1 && RowId(cfg, g[0]) == Some(id) && id != st.prevIdentifier
    requires ProcessRow(cfg, st, g[0]).next.Success?
    ensures ProcessRow(cfg, st, g[0]).emits == Flush(st)
    ensures GroupProgress(cfg, g, id, 1, ProcessRow(cfg, st, g[0]).next.value)
  {
    ProcessRowNewGroup(cfg, st, g[0]);
  }

  /** A second row goes into slot 1 of the first attachment page. */
  lemma ProgressFirstSlot(cfg: UnitConfig, g: seq<Record>, id: Value, s: BatchState, s': BatchState)
    requires Inv(cfg, s) && GroupProgress(cfg, g, id, 1, s)
    requires 1 < |g| && s'.prevIdentifier == id
    requires ContinuesGroup(cfg, s, g[1], s')
    ensures GroupProgress(cfg, g, id, 2, s')
  {
    assert g[1..2] == [g[1]];
  }

  /** Row `m` goes into the next free slot of the open page. */
  lemma ProgressNextSlot(cfg: UnitConfig, g: seq<Record>, id: Value, m: int, s: BatchState, s': BatchState)
    requires Inv(cfg, s) && GroupProgress(cfg, g, id, m, s)
    requires 2 <= m < |g| && (m - 2) % 4 < 3 && s'.prevIdentifier == id
    requires ContinuesGroup(cfg, s, g[m], s')
    ensures GroupProgress(cfg, g, id, m + 1, s')
  {
    var q := (m - 2) / 4;
    assert m - 2 == 4 * q + (m - 2) % 4;
    assert (m - 1) / 4 == q && (m - 1) % 4 == (m - 2) % 4 + 1;
    SlotFillsSnoc(cfg, g, 1 + 4 * |s.unitTemplates|, m);
  }

  /** Row `m` finds the open page full: the page is closed and the row opens the next one. */
  lemma ProgressRollover(cfg: UnitConfig, g: seq<Record>, id: Value, m: int, s: BatchState, s': BatchState)
    requires Inv(cfg, s) && GroupProgress(cfg, g, id, m, s)
    requires 2 <= m < |g| && (m - 2) % 4 == 3 && s'.prevIdentifier == id
    requires ContinuesGroup(cfg, s, g[m], s')
    ensures GroupProgress(cfg, g, id, m + 1, s')
  {
    var u := |s.unitTemplates|;
    var q := (m - 2) / 4;
    assert m - 2 == 4 * q + 3;
    assert (m - 1) / 4 == q + 1 && (m - 1) % 4 == 0;
    assert g[1 + 4 * (u + 1) .. m + 1] == [g[m]];
    assert forall k :: 0 <= k < u + 1 ==>
      s'.unitTemplates[k] == (if k < u then s.unitTemplates[k] else s.newSlot.value);
  }

  /** A row that continues the group advances the state of its first `m` rows by one row. */
  lemma ProgressStep(cfg: UnitConfig, g: seq<Record>, id: Value, m: int, s: BatchState, s': BatchState)
    requires Inv(cfg, s) && GroupProgress(cfg, g, id, m, s)
    requires m < |g| && s'.prevIdentifier == id
    requires ContinuesGroup(cfg, s, g[m], s')
    ensures GroupProgress(cfg, g, id, m + 1, s')
  {
    if m == 1 {
      ProgressFirstSlot(cfg, g, id, s, s');
    } else if (m - 2) % 4 < 3 {
      ProgressNextSlot(cfg, g, id, m, s, s');
    } else {
      ProgressRollover(cfg, g, id, m, s, s');
    }
  }

  /** Row `m` of a group writes nothing and advances the state of the first `m` rows by one row. */
  lemma GroupNext(cfg: UnitConfig, g: seq<Record>, id: Value, m: int, s: BatchState)
    requires Inv(cfg, s) && GroupProgress(cfg, g, id, m, s)
    requires m < |g| && RowId(cfg, g[m]) == Some(id)
    requires ProcessRow(cfg, s, g[m]).next.Success?
    ensures ProcessRow(cfg, s, g[m]).emits == []
    ensures GroupProgress(cfg, g, id, m + 1, ProcessRow(cfg, s, g[m]).next.value)
  {
    ProcessRowSameGroup(cfg, s, g[m]);
    ProgressStep(cfg, g, id, m, s, ProcessRow(cfg, s, g[m]).next.value);
  }

  /** The loop over the rows of `g` from row `m` on, row by row. */
  function Remaining(cfg: UnitConfig, s: BatchState, g: seq<Record>, m: int): (r: StepResult)
    requires Inv(cfg, s) && 0 <= m <= |g|
    decreases |g| - m
  {
    if m == |g| then Step([], Success(s))
    else
      var first := ProcessRow(cfg, s, g[m]);
      match first.next
      case Failure(e) => first
      case Success(s1) =>
        var rest := Remaining(cfg, s1, g, m + 1);
        Step(first.emits + rest.emits, rest.next)
  }

  /** Running the rows of `g` from row `m` on is running the loop over `g[m..]`. */
  lemma {:induction false} RemainingSteps(cfg: UnitConfig, s: BatchState, g: seq<Record>, m: int)
    requires Inv(cfg, s) && 0 <= m <= |g|
    ensures Remaining(cfg, s, g, m) == Steps(cfg, s, g[m..])
    decreases |g| - m
  {
    if m < |g| {
      var rows := g[m..];
      assert rows[0] == g[m] && rows[1..] == g[m + 1..];
      var first := ProcessRow(cfg, s, g[m]);
      if first.next.Success? {
        RemainingSteps(cfg, first.next.value, g, m + 1);
      }
    }
  }

  /** The remaining rows of a group write nothing and complete the group's state. */
  lemma {:induction false} GroupTail(cfg: UnitConfig, g: seq<Record>, id: Value, m: int, s: BatchState)
      returns (last: BatchState)
    requires Inv(cfg, s) && GroupProgress(cfg, g, id, m, s) && HasId(cfg, g, id)
    requires Remaining(cfg, s, g, m).next.Success?
    ensures Remaining(cfg, s, g, m) == Step([], Success(last))
    ensures GroupProgress(cfg, g, id, |g|, last)
    decreases |g| - m
  {
    if m < |g| {
      GroupNext(cfg, g, id, m, s);
      var s1 := ProcessRow(cfg, s, g[m]).next.value;
      last := GroupTail(cfg, g, id, m + 1, s1);
      assert [] + Remaining(cfg, s1, g, m + 1).emits == [];
    } else {
      last := s;
    }
  }

  /** A whole group, entered from a state with a different identifier, first writes
      out the previous group and then nothing, leaving the group's complete state. */
  lemma GroupRun(cfg: UnitConfig, st: BatchState, g: seq<Record>, id: Value)
    requires Inv(cfg, st)
    requires |g| >= 1 && HasId(cfg, g, id) && id != st.prevIdentifier
    requires Steps(cfg, st, g).next.Success?
    ensures Steps(cfg, st, g).emits == Flush(st)
    ensures GroupProgress(cfg, g, id, |g|, Steps(cfg, st, g).next.value)
  {
    StepsUncons(cfg, st, g);
    GroupHead(cfg, st, g, id);
    var s1 := ProcessRow(cfg, st, g[0]).next.value;
    RemainingSteps(cfg, s1, g, 1);
    var last := GroupTail(cfg, g, id, 1, s1);
    AppendEmpty(Flush(st));
  }

  /** The attachment pages of a complete group: ceil((|g| - 1) / 4) of them, page k
      holding the rows of `PageRows(g, k)` in slots 1, 2, ... */
  lemma GroupPages(cfg: UnitConfig, g: seq<Record>, id: Value, s: BatchState)
    requires Inv(cfg, s) && GroupProgress(cfg, g, id, |g|, s)
    ensures |Pages(s)| == Ceil4(|g| - 1)
    ensures forall k :: 0 <= k < |Pages(s)| ==>
              1 + 4 * k <= |g| && Pages(s)[k].fills == SlotFills(cfg, PageRows(g, k))
  {
    var m := |g|;
    var pages := Pages(s);
    var u := |s.unitTemplates|;
    if m >= 2 {
      var q := (m - 2) / 4;
      assert m - 2 == 4 * q + (m - 2) % 4;
      assert Ceil4(m - 1) == q + 1;
      assert pages == s.unitTemplates + [s.newSlot.value];
      forall k | 0 <= k < |pages|
        ensures 1 + 4 * k <= |g| && pages[k].fills == SlotFills(cfg, PageRows(g, k))
      {
        if k < u {
          assert pages[k] == s.unitTemplates[k];
        } else {
          assert pages[k] == s.newSlot.value;
        }
      }
    }
  }

  /** A flush with a base form writes `<name>.pdf` and then page k as `<name>-A<k>.pdf`. */
  lemma FlushFiles(st: BatchState)
    requires st.base.Some?
    ensures |Flush(st)| == 1 + |Pages(st)|
    ensures Flush(st)[0] == Emission(BaseName(Show(st.outputName)), st.base.value)
    ensures forall k :: 0 <= k < |Pages(st)| ==>
              Flush(st)[k + 1] == Emission(AttachmentName(Show(st.outputName), k), Pages(st)[k])
  {
  }

  /** Every attachment page of a state is made from the attachment form. */
  lemma PagesMadeFrom(cfg: UnitConfig, st: BatchState)
    requires DocsMadeFrom(cfg, st)
    ensures forall k :: 0 <= k < |Pages(st)| ==> MadeFrom(Pages(st)[k], cfg.form2)
  {
    var pages := Pages(st);
    forall k | 0 <= k < |pages|
      ensures MadeFrom(pages[k], cfg.form2)
    {
      if k < |st.unitTemplates| {
        assert pages[k] == st.unitTemplates[k];
      } else {
        assert pages[k] == st.newSlot.value;
      }
    }
  }

  /** Flushing a complete group writes exactly the group's files. */
  lemma GroupFlush(cfg: UnitConfig, g: seq<Record>, id: Value, s: BatchState)
    requires Inv(cfg, s) && DocsMadeFrom(cfg, s) && GroupProgress(cfg, g, id, |g|, s)
    ensures GroupFilesOk(cfg, g, Flush(s))
  {
    GroupPages(cfg, g, id, s);
    FlushFiles(s);
    PagesMadeFrom(cfg, s);
    var pages := Pages(s);
    var name := Show(s.outputName);
    var es := Flush(s);
    forall k | 0 <= k < |es| - 1
      ensures && 1 + 4 * k <= |g|
              && es[k + 1].name == AttachmentName(name, k)
              && es[k + 1].doc.fills == SlotFills(cfg, PageRows(g, k))
              && MadeFrom(es[k + 1].doc, cfg.form2)
    {
      assert es[k + 1] == Emission(AttachmentName(name, k), pages[k]);
    }
  }

  /** An attachment page closed by rollover holds exactly four rows; the last page
      holds the remaining one to four; four extra rows give one page, not two. */
  lemma AttachmentSizes(cfg: UnitConfig, g: seq<Record>, es: seq<Emission>)
    requires GroupFilesOk(cfg, g, es)
    ensures forall k :: 1 <= k < |es| - 1 ==> |es[k].doc.fills| == Capacity
    ensures |es| >= 2 ==> 1 <= |es[|es| - 1].doc.fills| == |g| - 1 - 4 * (|es| - 2) <= Capacity
    ensures |g| - 1 == 4 ==> |es| == 2
    ensures |g| == 1 ==> |es| == 1
  {
    forall k | 1 <= k < |es| - 1
      ensures |es[k].doc.fills| == Capacity
    {
      assert es[(k - 1) + 1].doc.fills == SlotFills(cfg, PageRows(g, k - 1));
    }
    if |es| >= 2 {
      var k := |es| - 2;
      assert es[k + 1].doc.fills == SlotFills(cfg, PageRows(g, k));
    }
  }

  /** The description of a group's files leaves no freedom: two file lists that both
      meet it are equal, names, fills and filled contents alike. */
  lemma GroupFilesUnique(cfg: UnitConfig, g: seq<Record>, es: seq<Emission>, es': seq<Emission>)
    requires GroupFilesOk(cfg, g, es) && GroupFilesOk(cfg, g, es')
    ensures es == es'
  {
    forall k | 0 <= k < |es|
      ensures es[k] == es'[k]
    {
      if k == 0 {
        SameDocument(es[0].doc, es'[0].doc, cfg.form);
      } else {
        var j := k - 1;
        assert es[j + 1].doc.fills == SlotFills(cfg, PageRows(g, j)) == es'[j + 1].doc.fills;
        SameDocument(es[j + 1].doc, es'[j + 1].doc, cfg.form2);
      }
    }
  }

  /** Two documents made from the same form by the same fills are the same document. */
  lemma SameDocument(d: Document, d': Document, origin: Template)
    requires MadeFrom(d, origin) && MadeFrom(d', origin) && d.fills == d'.fills
    ensures d == d'
  {
  }

  /** The loop over a non-empty sequence: its first row, then the loop over the rest. */
  lemma StepsCons(cfg: UnitConfig, st: BatchState, rows: seq<Record>)
    requires Inv(cfg, st) && |rows| > 0
    requires ProcessRow(cfg, st, rows[0]).next.Success?
    ensures var first := ProcessRow(cfg, st, rows[0]);
            var rest := Steps(cfg, first.next.value, rows[1..]);
            Steps(cfg, st, rows) == Step(first.emits + rest.emits, rest.next)
  {
  }

  /** A successful loop over a non-empty sequence ran its first row successfully. */
  lemma StepsUncons(cfg: UnitConfig, st: BatchState, rows: seq<Record>)
    requires Inv(cfg, st) && |rows| > 0
    requires Steps(cfg, st, rows).next.Success?
    ensures ProcessRow(cfg, st, rows[0]).next.Success?
    ensures var first := ProcessRow(cfg, st, rows[0]);
            var rest := Steps(cfg, first.next.value, rows[1..]);
            Steps(cfg, st, rows) == Step(first.emits + rest.emits, rest.next)
  {
  }

  /** The whole loop keeps each document equal to its form filled by its recorded fills. */
  lemma {:induction false} StepsMadeFrom(cfg: UnitConfig, st: BatchState, rows: seq<Record>)
    requires Inv(cfg, st) && DocsMadeFrom(cfg, st)
    requires Steps(cfg, st, rows).next.Success?
    ensures DocsMadeFrom(cfg, Steps(cfg, st, rows).next.value)
    decreases |rows|
  {
    if |rows| > 0 {
      var first := ProcessRow(cfg, st, rows[0]);
      ProcessRowMadeFrom(cfg, st, rows[0]);
      StepsCons(cfg, st, rows);
      StepsMadeFrom(cfg, first.next.value, rows[1..]);
    }
  }

  /** Runs the loop over `a + b` as the loop over `a` followed by the loop over `b`. */
  lemma {:induction false} StepsAppend(cfg: UnitConfig, st: BatchState, a: seq<Record>, b: seq<Record>)
    requires Inv(cfg, st)
    requires Steps(cfg, st, a).next.Success?
    ensures Steps(cfg, st, a + b).emits ==
              Steps(cfg, st, a).emits + Steps(cfg, Steps(cfg, st, a).next.value, b).emits
    ensures Steps(cfg, st, a + b).next == Steps(cfg, Steps(cfg, st, a).next.value, b).next
    decreases |a|
  {
    if |a| == 0 {
      assert a + b == b;
    } else {
      assert (a + b)[0] == a[0];
      assert (a + b)[1..] == a[1..] + b;
      var first := ProcessRow(cfg, st, a[0]);
      var s1 := first.next.value;
      StepsCons(cfg, st, a);
      StepsCons(cfg, st, a + b);
      StepsAppend(cfg, s1, a[1..], b);
      var ra := Steps(cfg, s1, a[1..]);
      AppendAssoc(first.emits, ra.emits, Steps(cfg, ra.next.value, b).emits);
    }
  }

  lemma AppendEmpty<T>(x: seq<T>)
    ensures x + [] == x
  {
  }

  lemma AppendAssoc<T>(x: seq<T>, y: seq<T>, z: seq<T>)
    ensures x + (y + z) == (x + y) + z
  {
  }

  /** The loop fails on `a + b` when it fails on `a`. */
  lemma {:induction false} StepsPrefix(cfg: UnitConfig, st: BatchState, a: seq<Record>, b: seq<Record>)
    requires Inv(cfg, st)
    requires Steps(cfg, st, a + b).next.Success?
    ensures Steps(cfg, st, a).next.Success?
    decreases |a|
  {
    if |a| > 0 {
      assert (a + b)[0] == a[0];
      assert (a + b)[1..] == a[1..] + b;
      var first := ProcessRow(cfg, st, a[0]);
      StepsPrefix(cfg, first.next.value, a[1..], b);
    }
  }

  function Concat<T>(xss: seq<seq<T>>): seq<T>
  {
    if |xss| == 0 then [] else xss[0] + Concat(xss[1..])
  }

  /** `gs` cut with identifiers `ids`: non-empty runs, one identifier each, adjacent
      runs with different identifiers (so the runs are the maximal ones). */
  predicate GroupedBy(cfg: UnitConfig, gs: seq<seq<Record>>, ids: seq<Value>)
  {
    && |ids| == |gs|
    && (forall i :: 0 <= i < |gs| ==> |gs[i]| >= 1 && HasId(cfg, gs[i], ids[i]))
    && (forall i :: 0 < i < |gs| ==> ids[i] != ids[i - 1])
  }

  /** Grouped input stays grouped without its first group. */
  lemma GroupedByTail(cfg: UnitConfig, gs: seq<seq<Record>>, ids: seq<Value>)
    requires GroupedBy(cfg, gs, ids) && |gs| > 0
    ensures GroupedBy(cfg, gs[1..], ids[1..])
  {
    forall i | 0 < i < |gs[1..]|
      ensures ids[1..][i] != ids[1..][i - 1]
    {
      assert ids[1..][i] == ids[i + 1] && ids[1..][i - 1] == ids[i];
    }
  }

  /** Puts one group's files in front of the files of the following groups. */
  lemma ConsChunk(cfg: UnitConfig, gs: seq<seq<Record>>, c: seq<Emission>, chunks: seq<seq<Emission>>)
    requires |gs| > 0 && GroupFilesOk(cfg, gs[0], c)
    requires |chunks| == |gs| - 1
    requires forall i :: 0 <= i < |chunks| ==> GroupFilesOk(cfg, gs[1..][i], chunks[i])
    ensures Concat([c] + chunks) == c + Concat(chunks)
    ensures forall i :: 0 <= i < |gs| ==> GroupFilesOk(cfg, gs[i], ([c] + chunks)[i])
  {
    assert ([c] + chunks)[1..] == chunks;
    forall i | 0 < i < |gs|
      ensures GroupFilesOk(cfg, gs[i], ([c] + chunks)[i])
    {
      assert gs[1..][i - 1] == gs[i];
    }
  }

  /** The loop over grouped rows, followed by the final flush, writes what the state
      held before and then each group's files. */
  lemma {:induction false} StepsGroups(cfg: UnitConfig, st: BatchState, gs: seq<seq<Record>>, ids: seq<Value>)
      returns (chunks: seq<seq<Emission>>)
    requires Inv(cfg, st) && DocsMadeFrom(cfg, st) && GroupedBy(cfg, gs, ids)
    requires |gs| > 0 ==> ids[0] != st.prevIdentifier
    requires Steps(cfg, st, Concat(gs)).next.Success?
    ensures |chunks| == |gs|
    ensures Steps(cfg, st, Concat(gs)).emits + Flush(Steps(cfg, st, Concat(gs)).next.value)
            == Flush(st) + Concat(chunks)
    ensures forall i :: 0 <= i < |gs| ==> GroupFilesOk(cfg, gs[i], chunks[i])
    decreases |gs|
  {
    if |gs| == 0 {
      chunks := [];
    } else {
      var rest := Concat(gs[1..]);
      assert Concat(gs) == gs[0] + rest;
      StepsPrefix(cfg, st, gs[0], rest);
      StepsAppend(cfg, st, gs[0], rest);
      GroupRun(cfg, st, gs[0], ids[0]);
      var s1 := Steps(cfg, st, gs[0]).next.value;
      StepsMadeFrom(cfg, st, gs[0]);
      GroupFlush(cfg, gs[0], ids[0], s1);
      GroupedByTail(cfg, gs, ids);
      var chunks' := StepsGroups(cfg, s1, gs[1..], ids[1..]);
      ConsChunk(cfg, gs, Flush(s1), chunks');
      chunks := [Flush(s1)] + chunks';
      var tail := Steps(cfg, s1, rest);
      AppendAssoc(Flush(st), tail.emits, Flush(tail.next.value));
    }
  }

  /** Rows carrying the initial "initvalue" identifier, met before any other, are
      taken for a continuation of an empty group: they are packed into attachment
      pages but never reach the base form, so they write nothing, whether or not
      the loop over them raises. */
  lemma {:induction false} SentinelSteps(cfg: UnitConfig, st: BatchState, rows: seq<Record>)
    requires Inv(cfg, st) && st.base.None? && st.prevIdentifier == InitialIdentifier
    requires HasId(cfg, rows, InitialIdentifier)
    ensures Steps(cfg, st, rows).emits == []
    ensures Steps(cfg, st, rows).next.Success? ==>
              && Steps(cfg, st, rows).next.value.base.None?
              && Steps(cfg, st, rows).next.value.prevIdentifier == InitialIdentifier
    decreases |rows|
  {
    if |rows| > 0 {
      ProcessRowSameGroup(cfg, st, rows[0]);
      if ProcessRow(cfg, st, rows[0]).next.Success? {
        var s1 := ProcessRow(cfg, st, rows[0]).next.value;
        SentinelSteps(cfg, s1, rows[1..]);
      }
    }
  }

  /** A run made only of "initvalue" rows writes no file at all, also when it raises. */
  lemma SentinelRunWritesNothing(cfg: UnitConfig, rows: seq<Record>)
    requires HasId(cfg, rows, InitialIdentifier)
    ensures Run(cfg, rows).emitted == []
  {
    InitialInv(cfg);
    SentinelSteps(cfg, Initial(), rows);
  }

  /** A run that raises nothing, over a (possibly empty) prefix `p` of "initvalue"
      rows followed by rows cut into maximal runs of equal identifier, writes nothing
      for the prefix and then, group after group, exactly each group's files:
      `<name>.pdf` and `<name>-A0.pdf` ... with four extra rows per attachment page,
      the final group included. Every sequence of rows that all carry the identifier
      column splits this way (`SplitRows`). */
  lemma RunGroups(cfg: UnitConfig, p: seq<Record>, gs: seq<seq<Record>>, ids: seq<Value>)
      returns (chunks: seq<seq<Emission>>)
    requires HasId(cfg, p, InitialIdentifier)
    requires GroupedBy(cfg, gs, ids)
    requires |gs| > 0 ==> ids[0] != InitialIdentifier
    requires Run(cfg, p + Concat(gs)).error.None?
    ensures |chunks| == |gs|
    ensures Run(cfg, p + Concat(gs)).emitted == Concat(chunks)
    ensures forall i :: 0 <= i < |gs| ==> GroupFilesOk(cfg, gs[i], chunks[i])
  {
    InitialInv(cfg);
    StepsPrefix(cfg, Initial(), p, Concat(gs));
    SentinelSteps(cfg, Initial(), p);
    StepsMadeFrom(cfg, Initial(), p);
    StepsAppend(cfg, Initial(), p, Concat(gs));
    var s := Steps(cfg, Initial(), p).next.value;
    chunks := StepsGroups(cfg, s, gs, ids);
    var tail := Steps(cfg, s, Concat(gs));
    assert [] + tail.emits == tail.emits;
  }

  /** Every row carries the identifier column. */
  predicate AllHaveId(cfg: UnitConfig, rows: seq<Record>)
  {
    forall i :: 0 <= i < |rows| ==> RowId(cfg, rows[i]).Some?
  }

  lemma ConcatCons<T>(x: seq<T>, xss: seq<seq<T>>)
    ensures Concat([x] + xss) == x + Concat(xss)
  {
    assert ([x] + xss)[1..] == xss;
  }

  /** Rows cut into their maximal runs of equal identifier. */
  lemma {:induction false} GroupRows(cfg: UnitConfig, rows: seq<Record>)
      returns (gs: seq<seq<Record>>, ids: seq<Value>)
    requires AllHaveId(cfg, rows)
    ensures rows == Concat(gs) && GroupedBy(cfg, gs, ids)
    ensures |rows| > 0 ==> |gs| > 0 && Some(ids[0]) == RowId(cfg, rows[0])
    decreases |rows|
  {
    if |rows| == 0 {
      gs, ids := [], [];
      return;
    }
    var id := RowId(cfg, rows[0]).value;
    assert AllHaveId(cfg, rows[1..]) by {
      forall i | 0 <= i < |rows[1..]| ensures RowId(cfg, rows[1..][i]).Some? {
        assert rows[1..][i] == rows[i + 1];
      }
    }
    var gs', ids' := GroupRows(cfg, rows[1..]);
    if |gs'| > 0 && ids'[0] == id {
      var g := [rows[0]] + gs'[0];
      assert HasId(cfg, g, id) by {
        forall i | 0 <= i < |g| ensures RowId(cfg, g[i]) == Some(id) {
          if i > 0 { assert g[i] == gs'[0][i - 1]; }
        }
      }
      gs, ids := [g] + gs'[1..], ids';
      assert gs'[1..] == gs[1..] && gs' == [gs'[0]] + gs'[1..];
      ConcatCons(gs'[0], gs'[1..]);
      ConcatCons(g, gs'[1..]);
      assert rows == [rows[0]] + rows[1..];
      forall i | 0 < i < |gs| ensures |gs[i]| >= 1 && HasId(cfg, gs[i], ids[i]) {
        assert gs[i] == gs'[i];
      }
    } else {
      gs, ids := [[rows[0]]] + gs', [id] + ids';
      ConcatCons([rows[0]], gs');
      assert rows == [rows[0]] + rows[1..];
      forall i | 0 < i < |gs| ensures |gs[i]| >= 1 && HasId(cfg, gs[i], ids[i]) && ids[i] != ids[i - 1] {
        assert gs[i] == gs'[i - 1] && ids[i] == ids'[i - 1];
        if i > 1 { assert ids[i - 1] == ids'[i - 2]; }
      }
    }
  }

  /** Every sequence of rows that all carry the identifier column is a prefix of
      "initvalue" rows followed by maximal runs of equal identifier, the first of
      them not "initvalue": the shape `RunGroups` describes. */
  lemma {:induction false} SplitRows(cfg: UnitConfig, rows: seq<Record>)
      returns (p: seq<Record>, gs: seq<seq<Record>>, ids: seq<Value>)
    requires AllHaveId(cfg, rows)
    ensures rows == p + Concat(gs)
    ensures HasId(cfg, p, InitialIdentifier) && GroupedBy(cfg, gs, ids)
    ensures |gs| > 0 ==> ids[0] != InitialIdentifier
    decreases |rows|
  {
    if |rows| == 0 || RowId(cfg, rows[0]) != Some(InitialIdentifier) {
      p := [];
      gs, ids := GroupRows(cfg, rows);
      return;
    }
    assert AllHaveId(cfg, rows[1..]) by {
      forall i | 0 <= i < |rows[1..]| ensures RowId(cfg, rows[1..][i]).Some? {
        assert rows[1..][i] == rows[i + 1];
      }
    }
    var p';
    p', gs, ids := SplitRows(cfg, rows[1..]);
    p := [rows[0]] + p';
    assert rows == [rows[0]] + rows[1..];
    forall i | 0 <= i < |p| ensures RowId(cfg, p[i]) == Some(InitialIdentifier) {
      if i > 0 { assert p[i] == p'[i - 1]; }
    }
  }

  /** Distinct attachment indices give distinct file names. */
  lemma AttachmentNameInjective(name: string, i: nat, j: nat)
    requires AttachmentName(name, i) == AttachmentName(name, j)
    ensures i == j
  {
    var di, dj := NatToString(i), NatToString(j);
    var a, b := AttachmentName(name, i), AttachmentName(name, j);
    assert |di| == |dj|;
    assert a[|name| + 2 .. |name| + 2 + |di|] == di;
    assert b[|name| + 2 .. |name| + 2 + |dj|] == dj;
    NatToStringInjective(i, j);
  }

  /** The files written by one flush have pairwise distinct names. */
  lemma FlushNamesDistinct(st: BatchState)
    ensures forall i, j :: 0 <= i < j < |Flush(st)| ==> Flush(st)[i].name != Flush(st)[j].name
  {
    var es := Flush(st);
    if st.base.Some? {
      var name := Show(st.outputName);
      forall i, j | 0 <= i < j < |es|
        ensures es[i].name != es[j].name
      {
        if i == 0 {
          assert |es[j].name| > |es[i].name|;
        } else if es[i].name == es[j].name {
          AttachmentNameInjective(name, i - 1, j - 1);
        }
      }
    }
  }
}
