/** Construction of the field maps and row values handed to the fill primitive:
    `invert_dict`, the default-overlay merges and the per-slot filter over
    `;N`-suffixed configuration keys. */
module FieldMaps {
  import opened Outcomes
  import opened Text
  import opened Dicts
  import opened Cells
  import opened Forms

  /** The items of `d` with key and value swapped. */
  function Swapped(d: Dict<string>): (r: seq<(string, string)>)
    ensures |r| == |d|
    ensures forall i :: 0 <= i < |d| ==> r[i] == (d[i].1, d[i].0)
  {
    seq(|d|, i requires 0 <= i < |d| => (d[i].1, d[i].0))
  }

  /** `invert_dict(d)`: `dict([(v, k) for k, v in d.items()])`. */
  function InvertDict(d: Dict<string>): (r: Dict<string>)
    ensures DistinctKeys(r)
  {
    PutAllDistinct([], Swapped(d));
    PutAll([], Swapped(d))
  }

  /** Index `i` is the last item of `d` whose value is `v`. */
  predicate LastWithValue(d: Dict<string>, i: int, v: string)
  {
    0 <= i < |d| && d[i].1 == v && forall j :: i < j < |d| ==> d[j].1 != v
  }

  /** Each value maps back to its key; when several keys share a value, the key
      that comes last in iteration order wins. */
  lemma InvertDictLast(d: Dict<string>, i: int, v: string)
    requires LastWithValue(d, i, v)
    ensures Lookup(InvertDict(d), v) == Some(d[i].0)
  {
    assert LastWithKey(Swapped(d), i, v);
    PutAllLast([], Swapped(d), i, v);
  }

  /** A string that is no value of `d` is no key of the inverted dict. */
  lemma InvertDictAbsent(d: Dict<string>, v: string)
    requires forall j :: 0 <= j < |d| ==> d[j].1 != v
    ensures Lookup(InvertDict(d), v) == None
  {
    PutAllAbsent([], Swapped(d), v);
  }

  /** Every entry of the inverted dict comes from an item of `d`. */
  lemma InvertDictSound(d: Dict<string>, v: string)
    requires Lookup(InvertDict(d), v).Some?
    ensures exists i :: LastWithValue(d, i, v) && d[i].0 == Lookup(InvertDict(d), v).value
  {
    if forall j :: 0 <= j < |d| ==> d[j].1 != v {
      InvertDictAbsent(d, v);
    } else {
      var i := LastIndexOfValue(d, v);
      InvertDictLast(d, i, v);
    }
  }

  /** The last index holding value `v`. */
  function LastIndexOfValue(d: Dict<string>, v: string): (i: nat)
    requires exists j :: 0 <= j < |d| && d[j].1 == v
    ensures LastWithValue(d, i, v)
  {
    if d[|d| - 1].1 == v then |d| - 1
    else
      var front := d[..|d| - 1];
      assert exists j :: 0 <= j < |front| && front[j].1 == v by {
        var j :| 0 <= j < |d| && d[j].1 == v;
        assert front[j] == d[j];
      }
      var i := LastIndexOfValue(front, v);
      assert d[i] == front[i];
      i
  }

  /** Every value is injective: no two items share a value. */
  predicate DistinctValues(d: Dict<string>)
  {
    forall i, j :: 0 <= i < j < |d| ==> d[i].1 != d[j].1
  }

  /** On a dict whose values are distinct, inversion is a left inverse: the inverted
      dict maps `v` to `k` exactly when `d` maps `k` to `v`. */
  lemma InvertDictInjective(d: Dict<string>, k: string, v: string)
    requires DistinctKeys(d) && DistinctValues(d)
    ensures Lookup(InvertDict(d), v) == Some(k) <==> Lookup(d, k) == Some(v)
  {
    if Lookup(d, k) == Some(v) {
      LookupFound(d, k);
      var i :| 0 <= i < |d| && d[i] == (k, v) && forall j :: 0 <= j < i ==> d[j].0 != k;
      InvertDictLast(d, i, v);
    }
    if Lookup(InvertDict(d), v) == Some(k) {
      InvertDictSound(d, v);
      var i :| LastWithValue(d, i, v) && d[i].0 == k;
      LookupEntry(d, i);
    }
  }

  /** The parsed defaults file of a worksheet: its [mapping] and [values] sections. */
  datatype Defaults = Defaults(mapping: Dict<string>, values: Dict<string>)

  /** Default values as cell values (configuration values are text). */
  function AsCells(d: Dict<string>): (r: Record)
    ensures |r| == |d|
    ensures forall i :: 0 <= i < |d| ==> r[i] == (d[i].0, VStr(d[i].1))
  {
    seq(|d|, i requires 0 <= i < |d| => (d[i].0, VStr(d[i].1)))
  }

  /** `final_map`: the section's column-to-field map, overlaid with the default map
      when a defaults file exists, inverted to field-to-column. */
  function FieldMapFor(section: Dict<string>, defaults: Option<Defaults>): FieldMap
  {
    if defaults.Some? then InvertDict(Merge(section, defaults.value.mapping))
    else InvertDict(section)
  }

  /** `final_values`: the row overlaid with the default values when a defaults file exists. */
  function ValuesFor(row: Record, defaults: Option<Defaults>): Record
  {
    if defaults.Some? then Merge(row, AsCells(defaults.value.values)) else row
  }

  /** Overlaying default values never drops a column of the row. */
  lemma ValuesForKeeps(row: Record, defaults: Option<Defaults>, column: string)
    requires Lookup(row, column).Some?
    ensures Lookup(ValuesFor(row, defaults), column).Some?
  {
    if defaults.Some? {
      PutAllKeeps(row, AsCells(defaults.value.values), column);
    }
  }

  /** A default value wins over the row's own value for the same column; other
      columns keep the row's value. */
  lemma DefaultValuesWin(row: Record, d: Defaults, column: string)
    requires DistinctKeys(d.values)
    ensures Lookup(ValuesFor(row, Some(d)), column) ==
              if Lookup(d.values, column).Some? then Some(VStr(Lookup(d.values, column).value))
              else Lookup(row, column)
  {
    var c := AsCells(d.values);
    MergePrecedence(row, c, column);
    if Lookup(d.values, column).Some? {
      LookupFound(d.values, column);
      var i :| 0 <= i < |d.values| && d.values[i] == (column, Lookup(d.values, column).value)
               && forall j :: 0 <= j < i ==> d.values[j].0 != column;
      LookupEntry(c, i);
    }
  }

  /** A default mapping entry wins over the section's entry for the same column: the
      merged map that gets inverted holds the default's field for that column. */
  lemma DefaultMapWins(section: Dict<string>, d: Defaults, column: string)
    requires DistinctKeys(d.mapping)
    ensures Lookup(Merge(section, d.mapping), column) ==
              if Lookup(d.mapping, column).Some? then Lookup(d.mapping, column)
              else Lookup(section, column)
  {
    MergePrecedence(section, d.mapping, column);
  }

  /** Every field the final map knows comes from the last (merged) configuration
      entry naming that field. */
  lemma FieldMapForSound(section: Dict<string>, defaults: Option<Defaults>, field: string)
    requires Lookup(FieldMapFor(section, defaults), field).Some?
    ensures var merged := if defaults.Some? then Merge(section, defaults.value.mapping) else section;
            exists i :: LastWithValue(merged, i, field)
                        && merged[i].0 == Lookup(FieldMapFor(section, defaults), field).value
  {
    var merged := if defaults.Some? then Merge(section, defaults.value.mapping) else section;
    InvertDictSound(merged, field);
  }

  /** The slot-instance marker `;N`. */
  function SlotMarker(n: nat): string
  {
    ";" + NatToString(n)
  }

  /** The configuration key takes part in slot `n`. */
  predicate InSlot(key: string, n: nat)
  {
    Contains(key, SlotMarker(n))
  }

  /** The slot field map for instance `n`:
      `{value: key.split(';')[0] for key, value in section.items() if ';n' in key}`. */
  function SlotMap(section: Dict<string>, n: nat): (r: FieldMap)
    ensures DistinctKeys(r)
  {
    if |section| == 0 then []
    else
      var m := SlotMap(section[..|section| - 1], n);
      var (key, field) := section[|section| - 1];
      PutDistinct(m, field, BeforeFirst(key, ';'));
      if InSlot(key, n) then Put(m, field, BeforeFirst(key, ';')) else m
  }

  /** Index `i` is the last entry of slot `n` that names `field`. */
  predicate LastSlotEntry(section: Dict<string>, n: nat, i: int, field: string)
  {
    0 <= i < |section| && section[i].1 == field && InSlot(section[i].0, n)
    && forall j :: i < j < |section| ==> !(section[j].1 == field && InSlot(section[j].0, n))
  }

  /** Only entries of slot `n` take part; each maps its field to the part of its key
      before the first `;`, and on a shared field the later entry wins. */
  lemma {:induction false} SlotMapLast(section: Dict<string>, n: nat, i: int, field: string)
    requires LastSlotEntry(section, n, i, field)
    ensures Lookup(SlotMap(section, n), field) == Some(BeforeFirst(section[i].0, ';'))
  {
    var k := |section| - 1;
    var m := SlotMap(section[..k], n);
    LookupPut(m, section[k].1, BeforeFirst(section[k].0, ';'), field);
    if i < k {
      assert LastSlotEntry(section[..k], n, i, field);
      SlotMapLast(section[..k], n, i, field);
    }
  }

  /** A field that no entry of slot `n` names is not in the slot map. */
  lemma {:induction false} SlotMapAbsent(section: Dict<string>, n: nat, field: string)
    requires forall j :: 0 <= j < |section| ==> !(section[j].1 == field && InSlot(section[j].0, n))
    ensures Lookup(SlotMap(section, n), field) == None
  {
    if |section| > 0 {
      var k := |section| - 1;
      var m := SlotMap(section[..k], n);
      LookupPut(m, section[k].1, BeforeFirst(section[k].0, ';'), field);
      SlotMapAbsent(section[..k], n, field);
    }
  }
}
