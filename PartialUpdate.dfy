/**
 * The handlers' partial-update step: `setattr` applied to a stored record for
 * each supplied field in turn, written once for both record kinds.
 */
module PartialUpdate {

  /** The record after `setAttr` has been applied to each of `fields` in turn. */
  function ApplyFields<R, F>(r: R, fields: seq<F>, setAttr: (R, F) -> R): R
    decreases |fields|
  {
    if fields == [] then r else ApplyFields(setAttr(r, fields[0]), fields[1..], setAttr)
  }

  /** Applying two batches of fields in a row is applying their concatenation. */
  lemma {:induction false} ApplyFieldsConcat<R, F>(r: R, xs: seq<F>, ys: seq<F>, setAttr: (R, F) -> R)
    ensures ApplyFields(r, xs + ys, setAttr) == ApplyFields(ApplyFields(r, xs, setAttr), ys, setAttr)
    decreases |xs|
  {
    if xs != [] {
      assert (xs + ys)[0] == xs[0] && (xs + ys)[1..] == xs[1..] + ys;
      ApplyFieldsConcat(setAttr(r, xs[0]), xs[1..], ys, setAttr);
    } else {
      assert xs + ys == ys;
    }
  }

  /** The `for field, value in update_data.items(): setattr(...)` loop. */
  method SetAttrLoop<R, F>(stored: R, updateData: seq<F>, setAttr: (R, F) -> R) returns (record: R)
    ensures record == ApplyFields(stored, updateData, setAttr)
  {
    record := stored;
    var i := 0;
    while i < |updateData|
      invariant 0 <= i <= |updateData|
      invariant ApplyFields(record, updateData[i..], setAttr) == ApplyFields(stored, updateData, setAttr)
    {
      assert updateData[i..][0] == updateData[i] && updateData[i..][1..] == updateData[i + 1..];
      record := setAttr(record, updateData[i]);
      i := i + 1;
    }
    assert updateData[i..] == [];
  }
}
