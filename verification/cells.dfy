/** Spreadsheet cell values and their rendering by `str` / `format`. */
module Cells {
  import opened Text

  /** A cell value as the spreadsheet reader hands it over: text, a whole number,
      or an empty cell (`None`). */
  datatype Value = VStr(s: string) | VInt(i: int) | VNone

  /** `str(v)`, which is also what `'{}'.format(v)` produces. Text is shown as it is,
      an empty cell as `None`, and a whole number as its decimal digits, with a
      leading `-` exactly when it is negative. */
  function Show(v: Value): (r: string)
    ensures v.VStr? ==> r == v.s
    ensures v.VNone? ==> r == "None"
    ensures v.VInt? ==> |r| >= 1 && (r[0] == '-' <==> v.i < 0)
    ensures v.VInt? ==> forall k :: (if v.i < 0 then 1 else 0) <= k < |r| ==> IsDigit(r[k])
  {
    match v
    case VStr(s) => s
    case VInt(i) => IntToString(i)
    case VNone => "None"
  }

  /** Distinct whole numbers are shown differently, so integer identifiers give
      distinct file names. */
  lemma ShowIntInjective(a: int, b: int)
    requires Show(VInt(a)) == Show(VInt(b))
    ensures a == b
  {
    var r := Show(VInt(a));
    if a < 0 {
      assert b < 0;
      assert r[1..] == NatToString(-a) && r[1..] == NatToString(-b);
      NatToStringInjective(-a, -b);
    } else {
      assert b >= 0;
      NatToStringInjective(a, b);
    }
  }
}
